/** A trapezoidal fuzzy set: a labelled plot with four breakpoints, the
    range it spans and its piecewise-linear membership degree. */
module Trapezoid {

  /** One fuzzy set of a linguistic variable: its label (`name`) and its breakpoints
      (a, b, c, d), kept in the order the configuration gives them. */
  datatype Plot = Plot(name: string, a: real, b: real, c: real, d: real)

  /** The breakpoint order every configured plot has: rising edge on [a, b),
      plateau on [b, c], falling edge on (c, d]. Nothing checks it; the
      ramps and monotonicity below rely on it. */
  predicate WellFormed(p: Plot) {
    p.a <= p.b <= p.c <= p.d
  }

  ghost predicate AllWellFormed(ps: seq<Plot>) {
    forall p :: p in ps ==> WellFormed(p)
  }

  function Min(x: real, y: real): real { if x <= y then x else y }

  function Max(x: real, y: real): real { if x <= y then y else x }

  /** The smallest breakpoint. */
  function Start(p: Plot): (r: real)
    ensures r <= p.a && r <= p.b && r <= p.c && r <= p.d
    ensures r == p.a || r == p.b || r == p.c || r == p.d
    ensures WellFormed(p) ==> r == p.a
  {
    Min(Min(p.a, p.b), Min(p.c, p.d))
  }

  /** The largest breakpoint. */
  function End(p: Plot): (r: real)
    ensures r >= p.a && r >= p.b && r >= p.c && r >= p.d
    ensures r == p.a || r == p.b || r == p.c || r == p.d
    ensures WellFormed(p) ==> r == p.d
  {
    Max(Max(p.a, p.b), Max(p.c, p.d))
  }

  /** The width of the plot's support. */
  function Size(p: Plot): (r: real)
    ensures 0.0 <= r
    ensures Start(p) + r == End(p)
    ensures WellFormed(p) ==> r == p.d - p.a
  {
    End(p) - Start(p)
  }

  /** The membership degree of x: 0 outside [a, d], then the first of a rising
      ramp on [a, b), 1 on [b, c] and a falling ramp on (c, d] whose range
      holds x. The four branches cover every x whatever the breakpoint order,
      and each ramp is entered only when its edge has positive width, so the
      degree is always in [0, 1]. For sorted breakpoints the ramps go from 0
      up to 1 and from 1 down to 0. */
  function Membership(p: Plot, x: real): (r: real)
    ensures 0.0 <= r <= 1.0
    ensures x < p.a || p.d < x ==> r == 0.0
    ensures r == 1.0 ==> p.b <= x <= p.c
    ensures WellFormed(p) ==> (r == 1.0 <==> p.b <= x <= p.c)
    ensures WellFormed(p) ==> (0.0 < r <==> p.a < x < p.d || p.b <= x <= p.c)
    ensures WellFormed(p) && p.a <= x < p.b ==> r * (p.b - p.a) == x - p.a
    ensures WellFormed(p) && p.c < x <= p.d ==> r * (p.d - p.c) == p.d - x
  {
    if p.d < x || x < p.a then 0.0
    else if p.a <= x < p.b then Ramp(x - p.a, p.b - p.a); (x - p.a) / (p.b - p.a)
    else if p.b <= x <= p.c then 1.0
    else if p.c < x <= p.d then Ramp(p.d - x, p.d - p.c); (p.d - x) / (p.d - p.c)
    else assert false; 0.0
  }

  /** Membership never decreases up to the end of the plateau. */
  lemma MembershipRises(p: Plot, x: real, y: real)
    requires WellFormed(p)
    requires x <= y <= p.c
    ensures Membership(p, x) <= Membership(p, y)
  {
    if p.a <= x && y < p.b {
      var w := p.b - p.a;
      assert Membership(p, x) == (x - p.a) / w && Membership(p, y) == (y - p.a) / w;
      RampOrdered(x - p.a, y - p.a, w);
    }
  }

  /** Membership never increases from the start of the plateau on. */
  lemma MembershipFalls(p: Plot, x: real, y: real)
    requires WellFormed(p)
    requires p.b <= x <= y
    ensures Membership(p, y) <= Membership(p, x)
  {
    if p.c < x && y <= p.d {
      var w := p.d - p.c;
      assert Membership(p, x) == (p.d - x) / w && Membership(p, y) == (p.d - y) / w;
      RampOrdered(p.d - y, p.d - x, w);
    }
  }

  /** A ramp value: a part n of an edge of width w, as a fraction of w. */
  lemma Ramp(n: real, w: real)
    requires 0.0 <= n < w
    ensures 0.0 <= n / w < 1.0
    ensures (n / w) * w == n
  {
    assert n / w < w / w;
  }

  /** The larger part of an edge is the larger fraction of it. */
  lemma RampOrdered(n1: real, n2: real, w: real)
    requires n1 <= n2 && 0.0 < w
    ensures n1 / w <= n2 / w
  {
  }
}
