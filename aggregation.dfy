/** Max-aggregation of the plots of one linguistic variable into a table
    from sample point to membership degree (the fuzzy OR), as specification
    functions over values. The class Layouts.Layout runs the same steps in
    place. */
module Aggregation {
  import opened Trapezoid

  /** Sample point -> aggregated membership degree. */
  type Table = map<real, real>

  predicate IsIntegral(r: real) {
    r.Floor as real == r
  }

  /** How many points `start + arange(size)` yields for a plot: the ceiling
      of its size. */
  function SampleCount(p: Plot): (n: nat)
    ensures Size(p) <= n as real < Size(p) + 1.0
    ensures IsIntegral(Size(p)) ==> n as real == Size(p)
  {
    var s := Size(p);
    if IsIntegral(s) then s.Floor else s.Floor + 1
  }

  /** x is one of the first n sample points Start(p), Start(p) + 1, ... */
  predicate SampledWithin(p: Plot, n: nat, x: real) {
    var k := x - Start(p);
    0.0 <= k < n as real && IsIntegral(k)
  }

  /** x is a point at which the aggregation samples p. */
  predicate IsSample(p: Plot, x: real) {
    SampledWithin(p, SampleCount(p), x)
  }

  /** The sample points of a plot are the points at a whole distance from its
      start, from the start included up to the end excluded. */
  lemma SampleRange(p: Plot, x: real)
    ensures IsSample(p, x) <==> Start(p) <= x < End(p) && IsIntegral(x - Start(p))
  {
    var k, n := x - Start(p), SampleCount(p);
    if IsIntegral(k) && 0.0 <= k < n as real {
      assert k.Floor < n;
      assert k <= (n - 1) as real;
    }
  }

  /** The largest breakpoint is never sampled, so a plot whose plateau
      reaches its end (c == d) never has its value at d in the table. */
  lemma EndNeverSampled(p: Plot)
    ensures !IsSample(p, End(p))
  {
    SampleRange(p, End(p));
  }

  /** One step of the inner loop: y is written at x unless the entry already
      there is strictly larger. */
  function Put(t: Table, x: real, y: real): (r: Table)
    ensures r.Keys == t.Keys + {x}
    ensures y <= r[x] && (x in t ==> t[x] <= r[x])
    ensures r[x] == y || (x in t && r[x] == t[x])
    ensures forall z :: z in t && z != x ==> r[z] == t[z]
  {
    if x in t && t[x] > y then t else t[x := y]
  }

  /** The sample points Start(p) + n and below are exactly those below, plus
      Start(p) + n itself. */
  lemma SampledWithinStep(p: Plot, n: nat)
    ensures forall x :: SampledWithin(p, n + 1, x) <==> SampledWithin(p, n, x) || x == Start(p) + n as real
  {
    forall x | SampledWithin(p, n + 1, x)
      ensures SampledWithin(p, n, x) || x == Start(p) + n as real
    {
      IntegralStep(x - Start(p), n);
    }
    assert SampledWithin(p, n + 1, SamplePoint(p, n));
  }

  /** A whole number below n + 1 is below n or is n. */
  lemma IntegralStep(k: real, n: int)
    requires IsIntegral(k) && k < (n + 1) as real
    ensures k < n as real || k == n as real
  {
    assert k.Floor < n + 1;
  }

  /** The inner loop after its first n points: the table with each of those
      points raised to the plot's membership degree there. */
  function AddSamples(t: Table, p: Plot, n: nat): Table
    decreases n
  {
    if n == 0 then t else Sample(AddSamples(t, p, n - 1), p, n - 1)
  }

  /** After the first n points of p, the table is the point-wise maximum of
      t and of p's degree at those points. */
  lemma {:induction false} AddSamplesIsMax(t: Table, p: Plot, n: nat)
    ensures var r := AddSamples(t, p, n);
      && (forall x :: x in r <==> x in t || SampledWithin(p, n, x))
      && (forall x :: x in t ==> t[x] <= r[x])
      && (forall x :: SampledWithin(p, n, x) ==> Membership(p, x) <= r[x])
      && (forall x :: x in r ==>
            (x in t && r[x] == t[x]) || (SampledWithin(p, n, x) && r[x] == Membership(p, x)))
  {
    if n > 0 {
      AddSamplesIsMax(t, p, n - 1);
      SampledWithinStep(p, n - 1);
    }
  }

  /** The k-th sample point of p. */
  function SamplePoint(p: Plot, k: nat): (x: real)
    ensures SampledWithin(p, k + 1, x) && !SampledWithin(p, k, x)
  {
    Start(p) + k as real
  }

  /** One step of the inner loop: the table raised at the k-th sample point. */
  function Sample(t: Table, p: Plot, k: nat): Table
  {
    Put(t, SamplePoint(p, k), Membership(p, SamplePoint(p, k)))
  }

  /** The outer loop after the plots ps: each plot's sample points added in
      turn, starting from the table t. */
  function Aggregate(t: Table, ps: seq<Plot>): Table
    decreases |ps|
  {
    if ps == [] then t
    else
      var last := ps[|ps| - 1];
      AddSamples(Aggregate(t, ps[..|ps| - 1]), last, SampleCount(last))
  }

  /** The keys of t are those of base and every sample point of ps. */
  ghost predicate CoversSamples(t: Table, base: Table, ps: seq<Plot>) {
    forall x :: x in t <==> x in base || exists p :: p in ps && IsSample(p, x)
  }

  /** Each entry of t is at least the entry of base and the degree of every
      plot of ps sampled there. */
  ghost predicate BoundsAll(t: Table, base: Table, ps: seq<Plot>)
  {
    && (forall x :: x in base ==> x in t && base[x] <= t[x])
    && (forall p, x :: p in ps && IsSample(p, x) ==> x in t && Membership(p, x) <= t[x])
  }

  /** Each entry of t is the entry of base or the degree of a plot of ps
      sampled there. */
  ghost predicate AttainedBySome(t: Table, base: Table, ps: seq<Plot>)
  {
    forall x :: x in t ==>
      (x in base && t[x] == base[x]) || exists p :: p in ps && IsSample(p, x) && t[x] == Membership(p, x)
  }

  /** The outer loop's next step: one more plot's samples added. */
  lemma AggregateNext(t: Table, ps: seq<Plot>, i: nat)
    requires i < |ps|
    ensures Aggregate(t, ps[..i + 1]) == AddSamples(Aggregate(t, ps[..i]), ps[i], SampleCount(ps[i]))
  {
    assert ps[..i + 1][..i] == ps[..i];
  }

  /** t is the point-wise maximum of the table base and of the plots ps, each
      taken at its sample points. */
  ghost predicate MaxTable(t: Table, base: Table, ps: seq<Plot>)
  {
    CoversSamples(t, base, ps) && BoundsAll(t, base, ps) && AttainedBySome(t, base, ps)
  }

  /** Aggregating computes the point-wise maximum. */
  lemma {:induction false} AggregateIsMaxTable(base: Table, ps: seq<Plot>)
    ensures MaxTable(Aggregate(base, ps), base, ps)
  {
    if ps != [] {
      var init, last := ps[..|ps| - 1], ps[|ps| - 1];
      assert ps == init + [last];
      AggregateIsMaxTable(base, init);
      var prev := Aggregate(base, init);
      StepCoversSamples(prev, base, init, last);
      StepBoundsAll(prev, base, init, last);
      StepAttainedBySome(prev, base, init, last);
    }
  }

  lemma StepCoversSamples(prev: Table, base: Table, init: seq<Plot>, last: Plot)
    requires CoversSamples(prev, base, init)
    ensures CoversSamples(AddSamples(prev, last, SampleCount(last)), base, init + [last])
  {
    var ps := init + [last];
    var t := AddSamples(prev, last, SampleCount(last));
    AddSamplesIsMax(prev, last, SampleCount(last));
    assert forall p :: p in ps <==> p in init || p == last;
    forall x | x in t
      ensures x in base || exists p :: p in ps && IsSample(p, x)
    {
      if x !in base && !IsSample(last, x) {
        var p :| p in init && IsSample(p, x);
        assert p in ps;
      }
    }
    forall x | x in base || exists p :: p in ps && IsSample(p, x)
      ensures x in t
    {
      if x !in base {
        var p :| p in ps && IsSample(p, x);
        if p != last {
          assert p in init;
        }
      }
    }
  }

  lemma StepBoundsAll(prev: Table, base: Table, init: seq<Plot>, last: Plot)
    requires BoundsAll(prev, base, init)
    ensures BoundsAll(AddSamples(prev, last, SampleCount(last)), base, init + [last])
  {
    AddSamplesIsMax(prev, last, SampleCount(last));
    assert forall p :: p in init + [last] <==> p in init || p == last;
  }

  lemma StepAttainedBySome(prev: Table, base: Table, init: seq<Plot>, last: Plot)
    requires AttainedBySome(prev, base, init)
    ensures AttainedBySome(AddSamples(prev, last, SampleCount(last)), base, init + [last])
  {
    var ps := init + [last];
    var t := AddSamples(prev, last, SampleCount(last));
    AddSamplesIsMax(prev, last, SampleCount(last));
    assert forall p :: p in ps <==> p in init || p == last;
    forall x | x in t
      ensures (x in base && t[x] == base[x]) || exists p :: p in ps && IsSample(p, x) && t[x] == Membership(p, x)
    {
      if x in prev && t[x] == prev[x] {
        if !(x in base && prev[x] == base[x]) {
          var p :| p in init && IsSample(p, x) && prev[x] == Membership(p, x);
          assert p in ps;
        }
      } else {
        assert IsSample(last, x) && t[x] == Membership(last, x);
      }
    }
  }

  /** The maximum table of a base and a collection of plots is unique, and
      depends on the plots as a set: not on their order, nor on repetitions. */
  lemma MaxTableUnique(t1: Table, t2: Table, base: Table, ps1: seq<Plot>, ps2: seq<Plot>)
    requires forall p :: p in ps1 <==> p in ps2
    requires MaxTable(t1, base, ps1) && MaxTable(t2, base, ps2)
    ensures t1 == t2
  {
    forall x | x in t1
      ensures x in t2
    {
      if x !in base {
        var p :| p in ps1 && IsSample(p, x);
        assert p in ps2;
      }
    }
    forall x | x in t2
      ensures x in t1
    {
      if x !in base {
        var p :| p in ps2 && IsSample(p, x);
        assert p in ps1;
      }
    }
    forall x | x in t1
      ensures t1[x] <= t2[x]
    {
      if !(x in base && t1[x] == base[x]) {
        var p :| p in ps1 && IsSample(p, x) && t1[x] == Membership(p, x);
        assert p in ps2;
      }
    }
    forall x | x in t2
      ensures t2[x] <= t1[x]
    {
      if !(x in base && t2[x] == base[x]) {
        var p :| p in ps2 && IsSample(p, x) && t2[x] == Membership(p, x);
        assert p in ps1;
      }
    }
  }

  /** The order in which the plots are visited does not change the table. */
  lemma AggregateOrderIndependent(base: Table, ps1: seq<Plot>, ps2: seq<Plot>)
    requires forall p :: p in ps1 <==> p in ps2
    ensures Aggregate(base, ps1) == Aggregate(base, ps2)
  {
    AggregateIsMaxTable(base, ps1);
    AggregateIsMaxTable(base, ps2);
    MaxTableUnique(Aggregate(base, ps1), Aggregate(base, ps2), base, ps1, ps2);
  }

  /** Aggregating the same plots a second time over the result changes
      nothing. */
  lemma AggregateIdempotent(base: Table, ps: seq<Plot>)
    ensures Aggregate(Aggregate(base, ps), ps) == Aggregate(base, ps)
  {
    var t := Aggregate(base, ps);
    AggregateIsMaxTable(base, ps);
    AggregateIsMaxTable(t, ps);
    assert MaxTable(t, t, ps);
    MaxTableUnique(Aggregate(t, ps), t, t, ps, ps);
  }

  predicate InUnitRange(t: Table) {
    forall x :: x in t ==> 0.0 <= t[x] <= 1.0
  }

  /** Aggregating over a table of degrees gives the maximum table, keeps
      every entry a degree and never lowers an entry. */
  lemma AggregateRaisesTable(base: Table, ps: seq<Plot>)
    requires InUnitRange(base)
    ensures MaxTable(Aggregate(base, ps), base, ps)
    ensures InUnitRange(Aggregate(base, ps))
    ensures forall x :: x in base ==> x in Aggregate(base, ps) && base[x] <= Aggregate(base, ps)[x]
  {
    AggregateIsMaxTable(base, ps);
    MaxTableInUnitRange(Aggregate(base, ps), base, ps);
  }

  /** Every entry of a maximum table over a table of degrees is a degree. */
  lemma MaxTableInUnitRange(t: Table, base: Table, ps: seq<Plot>)
    requires MaxTable(t, base, ps)
    requires InUnitRange(base)
    ensures InUnitRange(t)
  {
    forall x | x in t
      ensures 0.0 <= t[x] <= 1.0
    {
      if !(x in base && t[x] == base[x]) {
        var p :| p in ps && IsSample(p, x) && t[x] == Membership(p, x);
      }
    }
  }
}
