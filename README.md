# Fuzzy membership and max-aggregation of a heating-system display

This project models the computational core of a small heating-system
visualiser. The visualiser shows fuzzy-logic trapezoidal membership
functions for three linguistic variables: square footage, street temperature
and water temperature. It also answers queries for the membership value at a
water temperature.

The core has two parts:

- **Trapezoid** (`trapezoid.dfy`). A `Plot` is a labelled fuzzy set with
  breakpoints `(a, b, c, d)`. `Start`, `End` and `Size` are the smallest
  breakpoint, the largest breakpoint and their difference. `Membership` is
  the trapezoid:
  - 0 outside `[a, d]`
  - a rising ramp on `[a, b)`
  - 1 on `[b, c]`
  - a falling ramp on `(c, d]`
- **Aggregation** (`aggregation.dfy`, `layout.dfy`). A `Layout` is one
  linguistic variable. It holds its title, its domain, a set of plots and a
  table `values` from sample point to degree.
  - `Create` samples each plot at `Start, Start + 1, …` (`ceil(Size)`
    points).
  - At each point it raises the table entry to the plot's degree unless the
    entry is already strictly larger. This is the point-wise maximum (fuzzy
    OR).
  - `Lookup` reads the table at a whole-number point and returns `None` on a
    miss.
  - The loops of `Create` are proved against the value-level functions
    `Put`, `AddSamples` and `Aggregate`. Those are proved equal to
    `MaxTable`, a declarative reference: the keys are the sample points, and
    each entry is an upper bound of every degree sampled there and equal to
    one of them.
- **HeatingSystem** (`heating.dfy`) holds the configured trapezoids and the
  water-temperature query. The entry at 60 is 1, and 200 is absent.

Breakpoints and degrees are exact `real`s. The source converts its integer
configuration with `float`.

Points where the code's behaviour is easy to misread:

- `Membership` is total. Its if-chain covers every x, whatever the
  breakpoint order. Each ramp is entered only when its edge has positive
  width, so the degree is always in [0, 1]. The ramp values and the
  monotonicity lemmas are stated for sorted breakpoints, which every
  configured plot has.
- When `a == b`, `Membership` is 1 at `a`, not 0. When `c == d`, it is 1 at
  `d`, not 0. The plateau test `b <= x <= c` is reached before the falling
  ramp.
- `Start` and `End` are the minimum and maximum of the four breakpoints.
  When the breakpoints are sorted, they are `a` and `d`.
- `numpy.arange(size)` yields `ceil(size)` points. The largest breakpoint is
  never sampled (`EndNeverSampled`).
- `create` does not clear `values` first. Its result is the maximum of the
  entries already there and the sampled degrees. On a fresh layout it is the
  plain maximum, and running it again changes nothing
  (`AggregateIdempotent`).

## Model

| member | source | states |
|---|---|---|
| Trapezoid.Start | graphic.py:23-25 | the result is one of the four breakpoints and no breakpoint is smaller; for sorted breakpoints it is `a` |
| Trapezoid.End | graphic.py:27-29 | the result is one of the four breakpoints and no breakpoint is larger; for sorted breakpoints it is `d` |
| Trapezoid.Size | graphic.py:31-33 | the width is non-negative and `Start + Size == End`; for sorted breakpoints it is `d - a` |
| Trapezoid.Membership | graphic.py:35-45 | the four branches cover every x for any breakpoint order, with no division by zero; the degree lies in [0, 1]; it is 0 outside [a, d]; it is 1 only on [b, c]; for sorted breakpoints it is 1 exactly on [b, c] and positive exactly on (a, d) ∪ [b, c], on [a, b) it is the fraction (x - a)/(b - a) of the rising edge, and on (c, d] the fraction (d - x)/(d - c) of the falling edge |
| Trapezoid.MembershipRises | graphic.py:38-43 | the degree never decreases from below `a` up to the end of the plateau |
| Trapezoid.MembershipFalls | graphic.py:42-45 | the degree never increases from the start of the plateau onwards |
| Aggregation.SampleCount | graphic.py:68 | `arange(size)` yields `ceil(size)` points: at least `size` and fewer than `size + 1`, exactly `size` when it is whole |
| Aggregation.SampleRange | graphic.py:68 | a plot's sample points are exactly the points at a whole distance from `Start`, from `Start` inclusive to `End` exclusive |
| Aggregation.EndNeverSampled | graphic.py:68 | the largest breakpoint is never a sample point |
| Aggregation.Put | graphic.py:72-78 | one update adds x to the keys; the entry at x becomes the larger of the old entry and the new degree; every other entry is unchanged; no entry decreases |
| Aggregation.SamplePoint | graphic.py:68 | the k-th sample point `Start + k` is among the first k + 1 sample points and not among the first k |
| Aggregation.Sample | graphic.py:72-78 | one inner-loop step: the membership degree at the k-th sample point is put into the table (no contract; its effect is stated by `Put`) |
| Aggregation.AddSamples | graphic.py:71-78 | the inner loop over a plot's first n sample points (no contract; its meaning is stated by `AddSamplesIsMax`) |
| Aggregation.Aggregate | graphic.py:67-78 | the outer loop over the plots, each adding its samples in turn (no contract; its meaning is stated by `AggregateIsMaxTable`) |
| Aggregation.AddSamplesIsMax | graphic.py:71-78 | after the inner loop's first n points, the keys are the old keys plus those points; each entry is at least its old value and the plot's degree there; each entry equals one of them |
| Aggregation.AggregateIsMaxTable | graphic.py:67-78 | after the outer loop the table is the point-wise maximum of its starting entries and of every plot's degree at that plot's sample points |
| Aggregation.MaxTableUnique | graphic.py:55-67 | the maximum table is unique; it depends only on which plots are present, not on their order or on repeats |
| Aggregation.AggregateOrderIndependent | graphic.py:67-78 | visiting the plots in any order gives the same table, so iterating an unordered set is harmless |
| Aggregation.AggregateIdempotent | graphic.py:64-78 | aggregating the same plots again over the result leaves the table unchanged |
| Aggregation.AggregateRaisesTable | graphic.py:71-78 | aggregation gives the maximum table, keeps every entry in [0, 1] and never lowers or removes an existing entry |
| Aggregation.MaxTableInUnitRange | graphic.py:71-78 | every entry of a maximum table over degrees is a degree in [0, 1] |
| Layouts.Layout.constructor | graphic.py:51-55 | a new layout keeps its title and domain, has no plots and has an empty table |
| Layouts.Layout.Size | graphic.py:57-59 | the domain width satisfies `start + Size == end`, and it is non-negative exactly when `start <= end` |
| Layouts.Layout.Add | graphic.py:61-62 | the set of plots grows by the new plot; adding a plot already present changes nothing |
| Layouts.Layout.Create | graphic.py:64-78 | the nested loops leave `values` equal to `Aggregate` of the old table and the plots, which is their maximum table; no entry decreases; entries stay in [0, 1] |
| Layouts.Layout.Lookup | graphic.py:189-192 | the result is absent exactly when the point is not a key of the table; otherwise it is the table entry, a degree in [0, 1] |
| HeatingSystem.SquareFootagePlots | graphic.py:100-108 | the square-footage trapezoids are three plots with sorted breakpoints |
| HeatingSystem.StreetTemperaturePlots | graphic.py:110-118 | the street-temperature trapezoids are three plots with sorted breakpoints |
| HeatingSystem.WaterTemperaturePlots | graphic.py:120-128 | the water-temperature trapezoids are three plots with sorted breakpoints |
| HeatingSystem.LowWaterTemperatureDegrees | graphic.py:125 | the trapezoid (39, 40, 57, 65) has degree 0 at 39, 1 at 40 and 50, 5/8 at 60, 0 at 65 and 0 at 70 |
| HeatingSystem.MediumWaterTemperatureAt60 | graphic.py:126 | the trapezoid (55, 60, 79, 83) is sampled at 60 and has degree 1 there |
| HeatingSystem.NoWaterTemperatureSampleAt200 | graphic.py:120-128 | no water-temperature trapezoid is sampled at 200 |
| HeatingSystem.WaterTemperatureTableAt60 | graphic.py:146-158 | the aggregated water-temperature table maps 60 to 1 |
| HeatingSystem.WaterTemperatureTableMisses200 | graphic.py:146-158 | the aggregated water-temperature table has no entry at 200 |
| HeatingSystem.WaterTemperatureTable | graphic.py:146-158 | the aggregated water-temperature table maps 60 to 1 and has no entry at 200 |
| HeatingSystem.QueryWaterTemperature | graphic.py:189-192 | building the water-temperature layout and querying it gives 1 at 60 and a miss at 200 |

## Left out

- Translation loading from `i18n.json` and `translate` (graphic.py:10-19)
  are left out. They are file I/O with a fallback and hold no logic of the
  core.
- All drawing is left out:
  - the per-plot `yValues` curves
  - `axis.plot`, the title, the y label, the x limits and the legend
  - the figure, grid and text-box set-up in `Figure.__init__`, the window
    title and `pyplot.show()`
  The configuration constants are kept as data. The construction of the
  water-temperature layout is kept in `QueryWaterTemperature`.
- The text handling of `onTextChanged` is left out: the empty-text case,
  `int(text)` parsing, `round(value, 4)` and the `set_val` calls.
  `Lookup` takes the already-parsed whole number.
- IEEE floating point is not modelled. Breakpoints, sample points, ramp
  divisions and table keys are exact reals, so rounding in `float64`
  keys and quotients is not captured.
- The plots are a sequence that `Add` keeps free of repeats, not a hash set.
  The set's unspecified iteration order is covered by
  `AggregateOrderIndependent` instead.
- The layout's domain (`start`, `end`) only sets the drawn x range. It does
  not restrict sampling, and the model does not use it either.
