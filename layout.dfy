/** A linguistic variable: its title and domain, the collection of plots
    added to it and the table that `Create` fills, in place, with the
    point-wise maximum of their membership degrees. */
module Layouts {
  import opened Wrappers
  import opened Trapezoid
  import opened Aggregation

  /** No plot occurs twice: the plots form a set. */
  ghost predicate Distinct(ps: seq<Plot>) {
    forall i, j :: 0 <= i < j < |ps| ==> ps[i] != ps[j]
  }

  class Layout {
    const title: string
    const start: real
    const end: real
    var plots: seq<Plot>
    var values: Table

    ghost predicate Valid()
      reads this
    {
      Distinct(plots) && InUnitRange(values)
    }

    /** The plots as the set the source keeps them in. */
    ghost function PlotSet(): set<Plot>
      reads this
    {
      set p | p in plots
    }

    constructor (title: string, start: real, end: real)
      ensures Valid()
      ensures this.title == title && this.start == start && this.end == end
      ensures plots == [] && values == map[]
    {
      this.title := title;
      this.start := start;
      this.end := end;
      plots := [];
      values := map[];
    }

    /** The width of the domain drawn for the variable. */
    function Size(): (r: real)
      ensures start + r == end
      ensures start <= end <==> 0.0 <= r
    {
      end - start
    }

    /** Adds a plot to the set of plots; adding one that is already there
        changes nothing. */
    method Add(plot: Plot)
      requires Valid()
      modifies this`plots
      ensures Valid()
      ensures PlotSet() == old(PlotSet()) + {plot}
      ensures plots == if plot in old(plots) then old(plots) else old(plots) + [plot]
    {
      if plot !in plots {
        plots := plots + [plot];
      }
    }

    /** Samples every plot at its start, start + 1, ... below its end and
        raises each table entry to the degree found there, leaving an entry
        that is strictly larger as it is. */
    method Create()
      requires Valid()
      modifies this`values
      ensures Valid()
      ensures values == Aggregate(old(values), plots)
      ensures MaxTable(values, old(values), plots)
      ensures forall x :: x in old(values) ==> x in values && old(values)[x] <= values[x]
    {
      // The source writes through an alias of the dictionary, so each entry
      // lands in `values` at once; here the map is copied into `table` and
      // stored back at the end. Nothing reads `values` in between.
      var table := values;
      ghost var base := values;
      var i := 0;
      while i < |plots|
        invariant 0 <= i <= |plots|
        invariant table == Aggregate(base, plots[..i])
      {
        var plot := plots[i];
        var n := SampleCount(plot);
        ghost var before := table;
        var k := 0;
        while k < n
          invariant 0 <= k <= n
          invariant table == AddSamples(before, plot, k)
        {
          var x := Start(plot) + k as real;
          var newY := Membership(plot, x);
          assert x == SamplePoint(plot, k);
          ghost var expected := Sample(table, plot, k);
          assert AddSamples(before, plot, k + 1) == expected;
          if !(x in table && table[x] > newY) {
            table := table[x := newY];
          }
          assert table == expected;
          k := k + 1;
        }
        AggregateNext(base, plots, i);
        i := i + 1;
      }
      assert plots[..i] == plots;
      AggregateRaisesTable(base, plots);
      values := table;
    }

    /** The table entry at a whole-number point, or None when the point was
        never sampled. */
    method Lookup(point: int) returns (r: Option<real>)
      requires Valid()
      ensures r == None <==> point as real !in values
      ensures r.Some? ==> point as real in values && r.value == values[point as real]
      ensures r.Some? ==> 0.0 <= r.value <= 1.0
    {
      var x := point as real;
      if x in values {
        r := Some(values[x]);
      } else {
        r := None;
      }
    }
  }
}
