/** The read-only part of the simulation engine (`src/sim.rs`): the
    constants, the value `State` of all five grids, the classification query
    `s`, the face tests `open_u` and `open_v`, the face averages and the
    bilinear sampler.  `f64` is modelled as `real`. */
module Fields {
  import opened Grid

  const EPSILON: real := 0.00000000001
  const FLUID: real := 1.0
  const SOLID: real := -EPSILON

  const OVERRELAXATION_FACTOR: real := 1.94
  const NUM_PROJ_ITERATIONS: nat := 100
  const GRAVITY: real := 7.2
  const DENSITY: real := 10.0
  const WINDSPEED: real := 10.0
  const BAND_WIDTH: nat := 5
  const NUM_BANDS: nat := 9
  const DT: real := 0.22
  const H: real := 0.4

  /** The five grids of a simulation of `w` by `h` cells. */
  datatype State = State(w: nat, h: nat, u: Field, v: Field, s: Field, p: Field, smoke: Field)

  /** Every stored classification is exactly FLUID or SOLID. */
  ghost predicate TwoValued(s: Field, w: nat, h: nat)
    requires Shaped(s, w, h)
  {
    forall x, y :: 0 <= x < w && 0 <= y < h ==> s[x][y] == FLUID || s[x][y] == SOLID
  }

  /** The staggered shapes: u on the (w+1) x h vertical faces, v on the
      w x (h+1) horizontal faces, s, p and smoke on the w x h cells. */
  ghost predicate WellFormed(st: State) {
    && st.w >= 1 && st.h >= 1
    && Shaped(st.u, st.w + 1, st.h)
    && Shaped(st.v, st.w, st.h + 1)
    && Shaped(st.s, st.w, st.h)
    && Shaped(st.p, st.w, st.h)
    && Shaped(st.smoke, st.w, st.h)
    && TwoValued(st.s, st.w, st.h)
  }

  /** Every entry of `f` lies in [lo, hi]. */
  ghost predicate Bounded(f: Field, lo: real, hi: real) {
    forall x, y :: 0 <= x < |f| && 0 <= y < |f[x]| ==> lo <= f[x][y] <= hi
  }

  function Min(a: real, b: real): (r: real) { if a <= b then a else b }
  function Max(a: real, b: real): (r: real) { if a <= b then b else a }
  function Min4(a: real, b: real, c: real, d: real): (r: real) { Min(Min(a, b), Min(c, d)) }
  function Max4(a: real, b: real, c: real, d: real): (r: real) { Max(Max(a, b), Max(c, d)) }

  // ---------------------------------------------------------------------
  // Classification queries

  /** The cells `s` may be probed at without panicking: the grid itself, and
      every point whose x is -1 or w, or whose y is -1 or h. */
  predicate Probeable(w: nat, h: nat, x: int, y: int) {
    (0 <= x < w && 0 <= y < h) || x == -1 || x == w as int || y == -1 || y == h as int
  }

  /** `Simulation::s`: the stored classification inside the grid, SOLID on
      the margin around it. */
  function S(s: Field, w: nat, h: nat, x: int, y: int): (r: real)
    requires Shaped(s, w, h) && Probeable(w, h, x, y)
    ensures 0 <= x < w && 0 <= y < h ==> r == s[x][y]
    ensures !(0 <= x < w && 0 <= y < h) ==> r == SOLID
    ensures TwoValued(s, w, h) ==> r == FLUID || r == SOLID
  {
    if 0 <= x < w && 0 <= y < h then s[x][y] else SOLID
  }

  /** `open_u`: the u-face (x, y) lies between two FLUID cells. */
  function OpenU(s: Field, w: nat, h: nat, x: nat, y: nat): (r: bool)
    requires Shaped(s, w, h) && Probeable(w, h, x, y)
    ensures r <==> 1 <= x < w && y < h && s[x][y] == FLUID && s[x - 1][y] == FLUID
  {
    S(s, w, h, x, y) == FLUID && S(s, w, h, x - 1, y) == FLUID
  }

  /** `open_v`: the v-face (x, y) lies between two FLUID cells. */
  function OpenV(s: Field, w: nat, h: nat, x: nat, y: nat): (r: bool)
    requires Shaped(s, w, h) && Probeable(w, h, x, y)
    ensures r <==> x < w && 1 <= y < h && s[x][y] == FLUID && s[x][y - 1] == FLUID
  {
    S(s, w, h, x, y) == FLUID && S(s, w, h, x, y - 1) == FLUID
  }

  /** `avg_u`: the mean of the four u-faces around the v-face (x, y). */
  function AvgU(u: Field, w: nat, h: nat, x: nat, y: nat): (r: real)
    requires Shaped(u, w + 1, h) && x < w && 1 <= y < h
    ensures Min4(u[x][y - 1], u[x][y], u[x + 1][y - 1], u[x + 1][y]) <= r
    ensures r <= Max4(u[x][y - 1], u[x][y], u[x + 1][y - 1], u[x + 1][y])
  {
    (u[x][y - 1] + u[x][y] + u[x + 1][y - 1] + u[x + 1][y]) * 0.25
  }

  /** `avg_v`: the mean of the four v-faces around the u-face (x, y). */
  function AvgV(v: Field, w: nat, h: nat, x: nat, y: nat): (r: real)
    requires Shaped(v, w, h + 1) && 1 <= x < w && y < h
    ensures Min4(v[x - 1][y], v[x][y], v[x - 1][y + 1], v[x][y + 1]) <= r
    ensures r <= Max4(v[x - 1][y], v[x][y], v[x - 1][y + 1], v[x][y + 1])
  {
    (v[x - 1][y] + v[x][y] + v[x - 1][y + 1] + v[x][y + 1]) * 0.25
  }

  // ---------------------------------------------------------------------
  // Bilinear sampling (the `create_sample_method!` macro)

  /** Where a sample position falls along one axis: the lower and upper
      stored indices and the weight `t` of the upper one. */
  datatype Axis = Axis(lo: nat, hi: nat, t: real)

  /** The clamp of a position into [H, n*H]. */
  function Clamp(pos: real, n: nat): (c: real)
    requires n >= 1
    ensures H <= c <= n as real * H
    ensures H <= pos <= n as real * H ==> c == pos
  {
    Max(H, Min(pos, n as real * H))
  }

  /** One axis of the sampler: clamp, then take the floor of the cell
      coordinate (offset by the field's stagger `d`) and clamp it to the last
      stored index.  The chosen indices never reach `n`, the weight is in
      [0, 1], and it is 1 only when the lower index was clamped. */
  function AxisOf(pos: real, n: nat, d: real): (a: Axis)
    requires n >= 1 && 0.0 <= d <= H
    ensures a.lo <= a.hi < n && a.hi <= a.lo + 1
    ensures 0.0 <= a.t <= 1.0
    ensures a.t == 1.0 ==> a.lo == a.hi == n - 1
    ensures a.lo as real * H + a.t * H == Clamp(pos, n) - d
  {
    var c := Clamp(pos, n);
    var cell := ((c - d) / H).Floor;
    var lo := if cell < n - 1 then cell else n - 1;
    var t := ((c - d) - lo as real * H) / H;
    Axis(lo, if lo + 1 < n - 1 then lo + 1 else n - 1, t)
  }

  /** The bilinear blend of the four corner samples, in the order the source
      adds them. */
  function Blend(f00: real, f10: real, f11: real, f01: real, tx: real, ty: real): (r: real) {
    var sx, sy := 1.0 - tx, 1.0 - ty;
    sx * sy * f00 + tx * sy * f10 + tx * ty * f11 + sx * ty * f01
  }

  lemma MulNonneg(a: real, b: real)
    requires 0.0 <= a && 0.0 <= b
    ensures 0.0 <= a * b
  {
  }

  /** Linear interpolation from `a` (t = 0) to `b` (t = 1). */
  function Lerp(a: real, b: real, t: real): (r: real) {
    (1.0 - t) * a + t * b
  }

  /** With t in [0, 1], interpolation stays within any bounds of its ends. */
  lemma LerpWithin(a: real, b: real, t: real, lo: real, hi: real)
    requires 0.0 <= t <= 1.0 && lo <= a <= hi && lo <= b <= hi
    ensures lo <= Lerp(a, b, t) <= hi
  {
    MulNonneg(1.0 - t, a - lo); MulNonneg(t, b - lo);
    MulNonneg(1.0 - t, hi - a); MulNonneg(t, hi - b);
    assert Lerp(a, b, t) - lo == (1.0 - t) * (a - lo) + t * (b - lo);
    assert hi - Lerp(a, b, t) == (1.0 - t) * (hi - a) + t * (hi - b);
  }

  /** The blend is interpolation along x, then along y. */
  lemma BlendIsLerpOfLerps(f00: real, f10: real, f11: real, f01: real, tx: real, ty: real)
    ensures Blend(f00, f10, f11, f01, tx, ty) == Lerp(Lerp(f00, f10, tx), Lerp(f01, f11, tx), ty)
  {
    var sx, sy := 1.0 - tx, 1.0 - ty;
    calc {
      Lerp(Lerp(f00, f10, tx), Lerp(f01, f11, tx), ty);
      sy * (sx * f00 + tx * f10) + ty * (sx * f01 + tx * f11);
      sy * (sx * f00) + sy * (tx * f10) + ty * (sx * f01) + ty * (tx * f11);
      Blend(f00, f10, f11, f01, tx, ty);
    }
  }

  /** With weights in [0, 1] the blend is a convex combination. */
  lemma BlendBounds(f00: real, f10: real, f11: real, f01: real, tx: real, ty: real)
    requires 0.0 <= tx <= 1.0 && 0.0 <= ty <= 1.0
    ensures Min4(f00, f10, f11, f01) <= Blend(f00, f10, f11, f01, tx, ty) <= Max4(f00, f10, f11, f01)
  {
    var m, M := Min4(f00, f10, f11, f01), Max4(f00, f10, f11, f01);
    BlendIsLerpOfLerps(f00, f10, f11, f01, tx, ty);
    LerpWithin(f00, f10, tx, m, M);
    LerpWithin(f01, f11, tx, m, M);
    LerpWithin(Lerp(f00, f10, tx), Lerp(f01, f11, tx), ty, m, M);
  }

  /** `f` has stored samples at every index in [0, w) x [0, h). */
  ghost predicate Covers(f: Field, w: nat, h: nat) {
    |f| >= w && forall x :: 0 <= x < w ==> |f[x]| >= h
  }

  /** `sample_u`, `sample_v` and `sample_smoke`: bilinear interpolation of
      `f`, whose samples sit at (x*H + dx, y*H + dy).  Only columns below `w`
      and rows below `h` are read, so u's last column and v's last row never
      are; the result lies between the least and greatest of the four
      samples it blends. */
  function Sample(f: Field, w: nat, h: nat, dx: real, dy: real, xIn: real, yIn: real): (r: real)
    requires w >= 1 && h >= 1 && Covers(f, w, h)
    requires 0.0 <= dx <= H && 0.0 <= dy <= H
    ensures var ax, ay := AxisOf(xIn, w, dx), AxisOf(yIn, h, dy);
            Min4(f[ax.lo][ay.lo], f[ax.hi][ay.lo], f[ax.hi][ay.hi], f[ax.lo][ay.hi]) <= r <=
            Max4(f[ax.lo][ay.lo], f[ax.hi][ay.lo], f[ax.hi][ay.hi], f[ax.lo][ay.hi])
  {
    var ax, ay := AxisOf(xIn, w, dx), AxisOf(yIn, h, dy);
    BlendBounds(f[ax.lo][ay.lo], f[ax.hi][ay.lo], f[ax.hi][ay.hi], f[ax.lo][ay.hi], ax.t, ay.t);
    Blend(f[ax.lo][ay.lo], f[ax.hi][ay.lo], f[ax.hi][ay.hi], f[ax.lo][ay.hi], ax.t, ay.t)
  }

  /** Sampling a field that lies in [lo, hi] gives a value in [lo, hi]. */
  lemma SampleWithin(f: Field, w: nat, h: nat, dx: real, dy: real, x: real, y: real, lo: real, hi: real)
    requires w >= 1 && h >= 1 && Covers(f, w, h)
    requires 0.0 <= dx <= H && 0.0 <= dy <= H
    requires Bounded(f, lo, hi)
    ensures lo <= Sample(f, w, h, dx, dy, x, y) <= hi
  {
    var ax, ay := AxisOf(x, w, dx), AxisOf(y, h, dy);
    assert lo <= f[ax.lo][ay.lo] <= hi && lo <= f[ax.hi][ay.lo] <= hi;
    assert lo <= f[ax.hi][ay.hi] <= hi && lo <= f[ax.lo][ay.hi] <= hi;
  }

  /** Sampling exactly at a stored interior sample returns it unchanged. */
  lemma SampleAtStoredPoint(f: Field, w: nat, h: nat, dx: real, dy: real, i: nat, j: nat)
    requires w >= 1 && h >= 1 && Covers(f, w, h)
    requires 0.0 <= dx <= H && 0.0 <= dy <= H
    requires 1 <= i < w && 1 <= j < h
    ensures Sample(f, w, h, dx, dy, i as real * H + dx, j as real * H + dy) == f[i][j]
  {
    var ax := AxisOf(i as real * H + dx, w, dx);
    var ay := AxisOf(j as real * H + dy, h, dy);
    assert Clamp(i as real * H + dx, w) == i as real * H + dx;
    assert ((i as real * H + dx - dx) / H) == i as real;
    assert ax.lo == i && ax.t == 0.0;
    assert Clamp(j as real * H + dy, h) == j as real * H + dy;
    assert ((j as real * H + dy - dy) / H) == j as real;
    assert ay.lo == j && ay.t == 0.0;
  }

  /** Sampling outside the domain is sampling at the clamped position. */
  lemma SampleClampIdempotent(f: Field, w: nat, h: nat, dx: real, dy: real, x: real, y: real)
    requires w >= 1 && h >= 1 && Covers(f, w, h)
    requires 0.0 <= dx <= H && 0.0 <= dy <= H
    ensures Sample(f, w, h, dx, dy, x, y) == Sample(f, w, h, dx, dy, Clamp(x, w), Clamp(y, h))
  {
    assert Clamp(Clamp(x, w), w) == Clamp(x, w);
    assert Clamp(Clamp(y, h), h) == Clamp(y, h);
  }
}
