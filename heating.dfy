/** The heating-system configuration: three linguistic variables with three
    trapezoids each, the breakpoints converted to reals, and the query of the
    water-temperature table at a whole-number temperature. */
module HeatingSystem {
  import opened Wrappers
  import opened Trapezoid
  import opened Aggregation
  import opened Layouts

  /** The configured trapezoids, each with its breakpoints in order. */
  function SquareFootagePlots(): (ps: seq<Plot>)
    ensures |ps| == 3 && AllWellFormed(ps)
  {
    [ Plot("Low square", 199.0, 200.0, 450.0, 510.0),
      Plot("Medium square", 450.0, 480.0, 720.0, 780.0),
      Plot("Big square", 710.0, 750.0, 1000.0, 1001.0) ]
  }

  function StreetTemperaturePlots(): (ps: seq<Plot>)
    ensures |ps| == 3 && AllWellFormed(ps)
  {
    [ Plot("Low temperature", -31.0, -30.0, 2.0, 6.0),
      Plot("Medium temperature", 1.0, 5.0, 18.0, 21.0),
      Plot("High temperature", 20.0, 23.0, 30.0, 32.0) ]
  }

  function WaterTemperaturePlots(): (ps: seq<Plot>)
    ensures |ps| == 3 && AllWellFormed(ps)
  {
    [ Plot("Low temperature", 39.0, 40.0, 57.0, 65.0),
      Plot("Medium temperature", 55.0, 60.0, 79.0, 83.0),
      Plot("High temperature", 78.0, 83.0, 105.0, 106.0) ]
  }

  /** The low water-temperature trapezoid (39, 40, 57, 65) at a few points. */
  lemma LowWaterTemperatureDegrees()
    ensures var low := WaterTemperaturePlots()[0];
      && Membership(low, 39.0) == 0.0
      && Membership(low, 40.0) == 1.0
      && Membership(low, 50.0) == 1.0
      && Membership(low, 60.0) == 0.625
      && Membership(low, 65.0) == 0.0
      && Membership(low, 70.0) == 0.0
  {
  }

  /** The medium water-temperature trapezoid (55, 60, 79, 83) is sampled at
      60, where its plateau begins. */
  lemma MediumWaterTemperatureAt60()
    ensures IsSample(WaterTemperaturePlots()[1], 60.0)
    ensures Membership(WaterTemperaturePlots()[1], 60.0) == 1.0
  {
    var medium := WaterTemperaturePlots()[1];
    assert Start(medium) == 55.0 && End(medium) == 83.0;
    assert IsIntegral(60.0 - 55.0) by {
      assert (5.0).Floor == 5;
    }
    SampleRange(medium, 60.0);
  }

  /** No water-temperature trapezoid is sampled at 200: it lies beyond the
      end of each. */
  lemma NoWaterTemperatureSampleAt200()
    ensures forall p :: p in WaterTemperaturePlots() ==> !IsSample(p, 200.0)
  {
    forall p | p in WaterTemperaturePlots()
      ensures !IsSample(p, 200.0)
    {
      assert End(p) <= 106.0;
      SampleRange(p, 200.0);
    }
  }

  /** The aggregated water-temperature table holds 1 at 60: the medium
      trapezoid's plateau starts there, above the low one's 5/8. */
  lemma WaterTemperatureTableAt60()
    ensures var t := Aggregate(map[], WaterTemperaturePlots());
      60.0 in t && t[60.0] == 1.0
  {
    var ps := WaterTemperaturePlots();
    var t := Aggregate(map[], ps);
    AggregateRaisesTable(map[], ps);
    MediumWaterTemperatureAt60();
    assert ps[1] in ps;
    assert BoundsAll(t, map[], ps);
  }

  /** The aggregated water-temperature table has no entry at 200, beyond
      every trapezoid. */
  lemma WaterTemperatureTableMisses200()
    ensures 200.0 !in Aggregate(map[], WaterTemperaturePlots())
  {
    var ps := WaterTemperaturePlots();
    AggregateIsMaxTable(map[], ps);
    NoWaterTemperatureSampleAt200();
    assert CoversSamples(Aggregate(map[], ps), map[], ps);
  }

  /** Both facts of the query together. */
  lemma WaterTemperatureTable()
    ensures var t := Aggregate(map[], WaterTemperaturePlots());
      60.0 in t && t[60.0] == 1.0 && 200.0 !in t
  {
    WaterTemperatureTableAt60();
    WaterTemperatureTableMisses200();
  }

  /** Builds the water-temperature variable as the source does (a layout,
      its three plots, the table) and queries it at 60 and at 200. */
  method QueryWaterTemperature() returns (at60: Option<real>, at200: Option<real>)
    ensures at60 == Some(1.0)
    ensures at200 == None
  {
    var layout := new Layout("Water Temperature", 40.0, 105.0);
    var ps := WaterTemperaturePlots();
    layout.Add(ps[0]);
    layout.Add(ps[1]);
    layout.Add(ps[2]);
    assert layout.plots == ps;
    layout.Create();
    WaterTemperatureTable();
    at60 := layout.Lookup(60);
    at200 := layout.Lookup(200);
  }
}
