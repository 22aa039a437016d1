/** What each state-changing operation of `Simulation` (`src/sim.rs`) leaves
    behind, as functions of the state before it, and the properties proved
    about them: which entries each pass may change, that advection only
    resamples the old fields, and what construction, obstacles and resets
    produce. */
module Passes {
  import opened Grid
  import opened Fields

  // ---------------------------------------------------------------------
  // Construction

  /** Rows between two dye bands: `height / NUM_BANDS`. */
  function BandSpacing(h: nat): (n: nat) { h / NUM_BANDS }

  /** The centre row of dye band `k`. */
  function Center(h: nat, k: nat): (c: nat) {
    BandSpacing(h) * k + BandSpacing(h) / 2
  }

  /** The row the band loop writes for band `k` at offset `i`, below or
      above the centre. */
  function BandRow(h: nat, k: nat, i: nat, below: bool): (y: int) {
    if below then Center(h, k) - i else Center(h, k) + i
  }

  /** Every row the band loop of `new` writes lies inside the grid. */
  ghost predicate BandsFit(h: nat) {
    forall k: nat, i: nat, below: bool :: k < NUM_BANDS && i < BAND_WIDTH ==>
      0 <= BandRow(h, k, i, below) < h
  }

  lemma MulLeMul(a: nat, b: nat, c: nat)
    requires b <= c
    ensures a * b <= a * c
  {
  }

  /** The band loop of `new` stays inside the grid exactly when the height is
      at least 73: below 72 the lowest band underflows row 0, and at 72 the
      highest band writes row 72. */
  lemma BandsFitIff(h: nat)
    ensures BandsFit(h) <==> h >= 73
  {
    var bs := BandSpacing(h);
    if h >= 73 {
      assert bs >= 8;
      forall k: nat, i: nat, below: bool | k < NUM_BANDS && i < BAND_WIDTH
        ensures 0 <= BandRow(h, k, i, below) < h
      {
        MulLeMul(bs, k, 8);
        assert bs * 9 <= h;
        assert Center(h, k) <= 8 * bs + bs / 2;
        assert 8 * bs + bs / 2 + 4 < h;
      }
    } else if h < 72 {
      assert BandRow(h, 0, 4, true) < 0;
    } else {
      assert BandRow(h, 8, 4, false) == 72;
    }
  }

  /** Row `y` is covered by one of the first `n` dye bands. */
  predicate Covered(h: nat, n: nat, y: int) {
    n > 0 && (Covered(h, n - 1, y) || Center(h, n - 1) - BAND_WIDTH < y < Center(h, n - 1) + BAND_WIDTH)
  }

  /** `Simulation::new(w, h)` (the obstacle flag DRAW_OBSTACLE is false),
      for the sizes it accepts without panicking (`BandsFitIff`). */
  function Initial(w: nat, h: nat): (st: State)
    requires w >= 1 && h >= 73
    ensures WellFormed(st) && st.w == w && st.h == h
  {
    State(w, h,
      seq(w + 1, x => seq(h, y => if x == 0 || x == w then WINDSPEED else 0.0)),
      Filled(w, h + 1, 0.0),
      Filled(w, h, FLUID),
      Filled(w, h, 0.0),
      seq(w, x => seq(h, y => if x == 0 && Covered(h, NUM_BANDS, y) then 1.0 else 0.0)))
  }

  /** What construction promises: the inflow columns of u carry WINDSPEED and
      every other velocity and pressure entry is 0, every cell is FLUID, and
      smoke is 1 exactly on the dye rows of column 0. */
  lemma InitialFields(w: nat, h: nat)
    requires w >= 1 && h >= 73
    ensures var st := Initial(w, h);
      && (forall x, y :: 0 <= x <= w && 0 <= y < h ==>
            st.u[x][y] == if x == 0 || x == w then WINDSPEED else 0.0)
      && (forall x, y :: 0 <= x < w && 0 <= y <= h ==> st.v[x][y] == 0.0)
      && (forall x, y :: 0 <= x < w && 0 <= y < h ==>
            st.s[x][y] == FLUID && st.p[x][y] == 0.0 &&
            (st.smoke[x][y] == 1.0 <==> x == 0 && Covered(h, NUM_BANDS, y)) &&
            (st.smoke[x][y] == 1.0 || st.smoke[x][y] == 0.0))
  {
  }

  /** A dye row of the initial smoke is one the band loop writes. */
  lemma {:induction false} CoveredIsBandRow(h: nat, n: nat, y: int)
    requires Covered(h, n, y)
    ensures exists k: nat, i: nat, below: bool :: k < n && i < BAND_WIDTH && y == BandRow(h, k, i, below)
  {
    if Covered(h, n - 1, y) {
      CoveredIsBandRow(h, n - 1, y);
      var k: nat, i: nat, below: bool :| k < n - 1 && i < BAND_WIDTH && y == BandRow(h, k, i, below);
      assert k < n;
    } else if y <= Center(h, n - 1) {
      assert y == BandRow(h, n - 1, Center(h, n - 1) - y, true);
    } else {
      assert y == BandRow(h, n - 1, y - Center(h, n - 1), false);
    }
  }

  // ---------------------------------------------------------------------
  // Gravity

  /** `gravitation`: adds GRAVITY * dt to every open v-face. */
  function Gravitate(st: State, dt: real): (r: State)
    requires WellFormed(st)
    ensures WellFormed(r) && r.(v := st.v) == st
    ensures forall x, y :: 0 <= x < st.w && 0 <= y <= st.h && !(y < st.h && OpenV(st.s, st.w, st.h, x, y)) ==>
              r.v[x][y] == st.v[x][y]
    ensures forall x :: 0 <= x < st.w ==> r.v[x][0] == st.v[x][0] && r.v[x][st.h] == st.v[x][st.h]
  {
    st.(v := seq(st.w, x requires 0 <= x < st.w =>
      seq(st.h + 1, y requires 0 <= y <= st.h =>
        if y < st.h && OpenV(st.s, st.w, st.h, x, y) then st.v[x][y] + GRAVITY * dt else st.v[x][y])))
  }

  // ---------------------------------------------------------------------
  // Pressure projection

  /** The sum of the four neighbour classifications of cell (x, y). */
  function WeightSum(st: State, x: nat, y: nat): (r: real)
    requires WellFormed(st) && x < st.w && y < st.h
  {
    S(st.s, st.w, st.h, x as int - 1, y) + S(st.s, st.w, st.h, x + 1, y) +
    S(st.s, st.w, st.h, x, y as int - 1) + S(st.s, st.w, st.h, x, y + 1)
  }

  /** How many of the four neighbours of cell (x, y) are FLUID. */
  function FluidNeighbours(st: State, x: nat, y: nat): (k: nat)
    requires WellFormed(st) && x < st.w && y < st.h
    ensures k <= 4
  {
    (if S(st.s, st.w, st.h, x as int - 1, y) == FLUID then 1 else 0) +
    (if S(st.s, st.w, st.h, x + 1, y) == FLUID then 1 else 0) +
    (if S(st.s, st.w, st.h, x, y as int - 1) == FLUID then 1 else 0) +
    (if S(st.s, st.w, st.h, x, y + 1) == FLUID then 1 else 0)
  }

  /** With a two-valued mask the weight sum is k - (4 - k) * EPSILON for k
      FLUID neighbours, which is never 0: the "enclosed cell" skip is never
      taken. */
  lemma WeightSumNonzero(st: State, x: nat, y: nat)
    requires WellFormed(st) && x < st.w && y < st.h
    ensures WeightSum(st, x, y) ==
            FluidNeighbours(st, x, y) as real - (4 - FluidNeighbours(st, x, y)) as real * EPSILON
    ensures WeightSum(st, x, y) != 0.0
  {
  }

  /** The part of the correction `d` that a face of weight `weight` takes
      when the weights add up to `sum`. */
  function Share(d: real, weight: real, sum: real): (r: real)
    requires sum != 0.0
  {
    d * weight / sum
  }

  /** The pressure change that goes with the correction `d` at a cell of
      total weight `sum`, in a step of length `dt`. */
  function PressureShare(d: real, sum: real, dt: real): (r: real)
    requires sum != 0.0 && dt != 0.0
  {
    d / sum * DENSITY * H / dt
  }

  /** One Gauss-Seidel update of cell (x, y), the body of the loops of
      `projection`: a non-FLUID cell, or one whose neighbour weights add up
      to 0, is left alone; otherwise the over-relaxed divergence `d` is
      spread over its four faces and its pressure is lowered. */
  function RelaxCell(st: State, dt: real, x: nat, y: nat): (r: State)
    requires WellFormed(st) && x < st.w && y < st.h && dt != 0.0
    ensures WellFormed(r) && r.w == st.w && r.h == st.h && r.s == st.s && r.smoke == st.smoke
  {
    if st.s[x][y] != FLUID then st
    else
      var d := OVERRELAXATION_FACTOR * (st.u[x + 1][y] - st.u[x][y] + st.v[x][y + 1] - st.v[x][y]);
      var s1 := S(st.s, st.w, st.h, x as int - 1, y);
      var s2 := S(st.s, st.w, st.h, x + 1, y);
      var s3 := S(st.s, st.w, st.h, x, y as int - 1);
      var s4 := S(st.s, st.w, st.h, x, y + 1);
      var sum := s1 + s2 + s3 + s4;
      if sum == 0.0 then st
      else
        st.(u := Set(Set(st.u, x, y, st.u[x][y] + Share(d, s1, sum)), x + 1, y, st.u[x + 1][y] - Share(d, s2, sum)),
            v := Set(Set(st.v, x, y, st.v[x][y] + Share(d, s3, sum)), x, y + 1, st.v[x][y + 1] - Share(d, s4, sum)),
            p := Set(st.p, x, y, st.p[x][y] - PressureShare(d, sum, dt)))
  }

  /** The three grid updates RelaxCell makes at a FLUID cell whose
      neighbour weights s1 .. s4 do not add up to 0. */
  lemma RelaxCellUpdates(st: State, dt: real, x: nat, y: nat, d: real, s1: real, s2: real, s3: real, s4: real)
    requires WellFormed(st) && x < st.w && y < st.h && dt != 0.0 && st.s[x][y] == FLUID
    requires d == OVERRELAXATION_FACTOR * (st.u[x + 1][y] - st.u[x][y] + st.v[x][y + 1] - st.v[x][y])
    requires s1 == S(st.s, st.w, st.h, x as int - 1, y) && s2 == S(st.s, st.w, st.h, x + 1, y)
    requires s3 == S(st.s, st.w, st.h, x, y as int - 1) && s4 == S(st.s, st.w, st.h, x, y + 1)
    requires s1 + s2 + s3 + s4 != 0.0
    ensures var sum := s1 + s2 + s3 + s4;
      RelaxCell(st, dt, x, y) == st.(
        u := Set(Set(st.u, x, y, st.u[x][y] + Share(d, s1, sum)), x + 1, y, st.u[x + 1][y] - Share(d, s2, sum)),
        v := Set(Set(st.v, x, y, st.v[x][y] + Share(d, s3, sum)), x, y + 1, st.v[x][y + 1] - Share(d, s4, sum)),
        p := Set(st.p, x, y, st.p[x][y] - PressureShare(d, sum, dt)))
  {
  }

  /** The cells (0, y) .. (n - 1, y) of row y, relaxed in order. */
  function RowPass(st: State, dt: real, y: nat, n: nat): (r: State)
    requires WellFormed(st) && y < st.h && n <= st.w && dt != 0.0
    ensures WellFormed(r) && r.w == st.w && r.h == st.h && r.s == st.s && r.smoke == st.smoke
  {
    if n == 0 then st else RelaxCell(RowPass(st, dt, y, n - 1), dt, n - 1, y)
  }

  /** Rows 0 .. n - 1, each relaxed left to right. */
  function SweepPass(st: State, dt: real, n: nat): (r: State)
    requires WellFormed(st) && n <= st.h && dt != 0.0
    ensures WellFormed(r) && r.w == st.w && r.h == st.h && r.s == st.s && r.smoke == st.smoke
  {
    if n == 0 then st else RowPass(SweepPass(st, dt, n - 1), dt, n - 1, st.w)
  }

  /** `n` full row-major sweeps. */
  function Sweeps(st: State, dt: real, n: nat): (r: State)
    requires WellFormed(st) && dt != 0.0
    ensures WellFormed(r) && r.w == st.w && r.h == st.h && r.s == st.s && r.smoke == st.smoke
  {
    if n == 0 then st else SweepPass(Sweeps(st, dt, n - 1), dt, st.h)
  }

  /** `projection`: zero the pressure, then NUM_PROJ_ITERATIONS sweeps. */
  function Project(st: State, dt: real): (r: State)
    requires WellFormed(st) && dt != 0.0
    ensures WellFormed(r) && r.w == st.w && r.h == st.h && r.s == st.s && r.smoke == st.smoke
  {
    Sweeps(st.(p := Filled(st.w, st.h, 0.0)), dt, NUM_PROJ_ITERATIONS)
  }

  /** The u-face (i, j) bounds a FLUID cell on its right or its left. */
  ghost predicate UFaceOfFluid(s: Field, w: nat, h: nat, i: nat, j: nat)
    requires Shaped(s, w, h) && i <= w && j < h
  {
    (i < w && s[i][j] == FLUID) || (1 <= i && s[i - 1][j] == FLUID)
  }

  /** The v-face (i, j) bounds a FLUID cell above or below it. */
  ghost predicate VFaceOfFluid(s: Field, w: nat, h: nat, i: nat, j: nat)
    requires Shaped(s, w, h) && i < w && j <= h
  {
    (j < h && s[i][j] == FLUID) || (1 <= j && s[i][j - 1] == FLUID)
  }

  /** At position (i, j), `b` keeps what projection may not write in `a`:
      the u-face (i, j) if it bounds no FLUID cell, the v-face (i, j)
      likewise, and the pressure of cell (i, j) if that cell is not FLUID. */
  ghost predicate KeptAt(a: State, b: State, i: nat, j: nat)
    requires WellFormed(a) && WellFormed(b) && b.w == a.w && b.h == a.h
  {
    && (i <= a.w && j < a.h && !UFaceOfFluid(a.s, a.w, a.h, i, j) ==> b.u[i][j] == a.u[i][j])
    && (i < a.w && j <= a.h && !VFaceOfFluid(a.s, a.w, a.h, i, j) ==> b.v[i][j] == a.v[i][j])
    && (i < a.w && j < a.h && a.s[i][j] != FLUID ==> b.p[i][j] == a.p[i][j])
  }

  /** Relaxing one cell writes only the four faces of that FLUID cell and its
      pressure. */
  lemma RelaxCellKeeps(st: State, dt: real, x: nat, y: nat, i: nat, j: nat)
    requires WellFormed(st) && x < st.w && y < st.h && dt != 0.0
    ensures KeptAt(st, RelaxCell(st, dt, x, y), i, j)
  {
  }

  lemma {:induction false} RowPassKeeps(st: State, dt: real, y: nat, n: nat, i: nat, j: nat)
    requires WellFormed(st) && y < st.h && n <= st.w && dt != 0.0
    ensures KeptAt(st, RowPass(st, dt, y, n), i, j)
  {
    if n > 0 {
      var mid := RowPass(st, dt, y, n - 1);
      RowPassKeeps(st, dt, y, n - 1, i, j);
      RelaxCellKeeps(mid, dt, n - 1, y, i, j);
    }
  }

  lemma {:induction false} SweepPassKeeps(st: State, dt: real, n: nat, i: nat, j: nat)
    requires WellFormed(st) && n <= st.h && dt != 0.0
    ensures KeptAt(st, SweepPass(st, dt, n), i, j)
  {
    if n > 0 {
      var mid := SweepPass(st, dt, n - 1);
      SweepPassKeeps(st, dt, n - 1, i, j);
      RowPassKeeps(mid, dt, n - 1, st.w, i, j);
    }
  }

  lemma {:induction false} SweepsKeeps(st: State, dt: real, n: nat, i: nat, j: nat)
    requires WellFormed(st) && dt != 0.0
    ensures KeptAt(st, Sweeps(st, dt, n), i, j)
  {
    if n > 0 {
      var mid := Sweeps(st, dt, n - 1);
      SweepsKeeps(st, dt, n - 1, i, j);
      SweepPassKeeps(mid, dt, st.h, i, j);
    }
  }

  /** Projection changes u and v only on faces bounding a FLUID cell, leaves
      p at 0 in every non-FLUID cell, and never touches s or smoke. */
  lemma ProjectFrame(st: State, dt: real)
    requires WellFormed(st) && dt != 0.0
    ensures var r := Project(st, dt);
      && r.s == st.s && r.smoke == st.smoke
      && (forall i, j :: 0 <= i <= st.w && 0 <= j < st.h && !UFaceOfFluid(st.s, st.w, st.h, i, j) ==>
            r.u[i][j] == st.u[i][j])
      && (forall i, j :: 0 <= i < st.w && 0 <= j <= st.h && !VFaceOfFluid(st.s, st.w, st.h, i, j) ==>
            r.v[i][j] == st.v[i][j])
      && (forall x, y :: 0 <= x < st.w && 0 <= y < st.h && st.s[x][y] != FLUID ==> r.p[x][y] == 0.0)
  {
    var start := st.(p := Filled(st.w, st.h, 0.0));
    var r := Project(st, dt);
    forall i, j | 0 <= i <= st.w && 0 <= j < st.h && !UFaceOfFluid(st.s, st.w, st.h, i, j)
      ensures r.u[i][j] == st.u[i][j]
    {
      SweepsKeeps(start, dt, NUM_PROJ_ITERATIONS, i, j);
    }
    forall i, j | 0 <= i < st.w && 0 <= j <= st.h && !VFaceOfFluid(st.s, st.w, st.h, i, j)
      ensures r.v[i][j] == st.v[i][j]
    {
      SweepsKeeps(start, dt, NUM_PROJ_ITERATIONS, i, j);
    }
    forall x, y | 0 <= x < st.w && 0 <= y < st.h && st.s[x][y] != FLUID
      ensures r.p[x][y] == 0.0
    {
      SweepsKeeps(start, dt, NUM_PROJ_ITERATIONS, x, y);
    }
  }

  /** The inflow face u[0, y] is not pinned by projection: relaxing the FLUID
      cell (0, y) moves it exactly when that cell's divergence is non-zero,
      since its SOLID left neighbour still carries the weight -EPSILON. */
  lemma RelaxCellMovesInflow(st: State, dt: real, y: nat)
    requires WellFormed(st) && y < st.h && dt != 0.0 && st.s[0][y] == FLUID
    ensures RelaxCell(st, dt, 0, y).u[0][y] == st.u[0][y] <==>
            st.u[1][y] - st.u[0][y] + st.v[0][y + 1] - st.v[0][y] == 0.0
  {
    var div := st.u[1][y] - st.u[0][y] + st.v[0][y + 1] - st.v[0][y];
    var d := OVERRELAXATION_FACTOR * div;
    var s1 := S(st.s, st.w, st.h, -1, y);
    var s2 := S(st.s, st.w, st.h, 1, y);
    var s3 := S(st.s, st.w, st.h, 0, y as int - 1);
    var s4 := S(st.s, st.w, st.h, 0, y + 1);
    WeightSumNonzero(st, 0, y);
    var sum := s1 + s2 + s3 + s4;
    RelaxCellUpdates(st, dt, 0, y, d, s1, s2, s3, s4);
    assert RelaxCell(st, dt, 0, y).u[0][y] == st.u[0][y] + Share(d, s1, sum);
    assert s1 == SOLID;
    ShareZeroIff(d, s1, sum);
  }

  /** A share is zero exactly when the correction or the weight is. */
  lemma ShareZeroIff(d: real, weight: real, sum: real)
    requires sum != 0.0
    ensures Share(d, weight, sum) == 0.0 <==> d == 0.0 || weight == 0.0
  {
    assert Share(d, weight, sum) * sum == d * weight;
  }

  // ---------------------------------------------------------------------
  // Velocity advection

  /** The back-trace of u-face (i, j), given its own velocity `own`: trace
      its position back by dt along `own` and the averaged pre-step v, and
      resample the pre-step u there. */
  function TraceU(st: State, dt: real, i: nat, j: nat, own: real): (r: real)
    requires WellFormed(st) && 1 <= i < st.w && j < st.h
  {
    var x := i as real * H - dt * own;
    var y := j as real * H + 0.5 * H - dt * AvgV(st.v, st.w, st.h, i, j);
    Sample(st.u, st.w, st.h, 0.0, H / 2.0, x, y)
  }

  /** The new value of u-face (i, j): an interior open face is traced back
      along its own pre-step velocity; every other face keeps its value. */
  function NewU(st: State, dt: real, i: nat, j: nat): (r: real)
    requires WellFormed(st) && i <= st.w && j < st.h
    ensures !(1 <= i < st.w && OpenU(st.s, st.w, st.h, i, j)) ==> r == st.u[i][j]
  {
    if 1 <= i < st.w && OpenU(st.s, st.w, st.h, i, j) then TraceU(st, dt, i, j, st.u[i][j])
    else st.u[i][j]
  }

  /** The back-trace of v-face (i, j), given its own velocity `own`. */
  function TraceV(st: State, dt: real, i: nat, j: nat, own: real): (r: real)
    requires WellFormed(st) && i < st.w && 1 <= j < st.h
  {
    var x := i as real * H + 0.5 * H - dt * AvgU(st.u, st.w, st.h, i, j);
    var y := j as real * H - dt * own;
    Sample(st.v, st.w, st.h, H / 2.0, 0.0, x, y)
  }

  /** The new value of v-face (i, j), symmetrically. */
  function NewV(st: State, dt: real, i: nat, j: nat): (r: real)
    requires WellFormed(st) && i < st.w && j <= st.h
    ensures !(1 <= j < st.h && OpenV(st.s, st.w, st.h, i, j)) ==> r == st.v[i][j]
  {
    if 1 <= j < st.h && OpenV(st.s, st.w, st.h, i, j) then TraceV(st, dt, i, j, st.v[i][j])
    else st.v[i][j]
  }

  /** `advection`: every face gets its new value computed from the pre-step
      state only.  Faces that are not interior open faces keep their value:
      the inflow columns u[0, _] and u[w, _], the rows v[_, 0] and v[_, h],
      and every face touching a SOLID cell. */
  function Advect(st: State, dt: real): (r: State)
    requires WellFormed(st)
    ensures WellFormed(r) && r.(u := st.u, v := st.v) == st
    ensures forall i, j :: 0 <= i <= st.w && 0 <= j < st.h && !(1 <= i < st.w && OpenU(st.s, st.w, st.h, i, j)) ==>
              r.u[i][j] == st.u[i][j]
    ensures forall i, j :: 0 <= i < st.w && 0 <= j <= st.h && !(1 <= j < st.h && OpenV(st.s, st.w, st.h, i, j)) ==>
              r.v[i][j] == st.v[i][j]
    ensures forall j :: 0 <= j < st.h ==> r.u[0][j] == st.u[0][j] && r.u[st.w][j] == st.u[st.w][j]
  {
    st.(u := seq(st.w + 1, i requires 0 <= i <= st.w => seq(st.h, j requires 0 <= j < st.h => NewU(st, dt, i, j))),
        v := seq(st.w, i requires 0 <= i < st.w => seq(st.h + 1, j requires 0 <= j <= st.h => NewV(st, dt, i, j))))
  }

  /** Maximum principle for velocity advection: new u and v stay within any
      bounds of the old u and v. */
  lemma AdvectWithin(st: State, dt: real, ulo: real, uhi: real, vlo: real, vhi: real)
    requires WellFormed(st) && Bounded(st.u, ulo, uhi) && Bounded(st.v, vlo, vhi)
    ensures Bounded(Advect(st, dt).u, ulo, uhi) && Bounded(Advect(st, dt).v, vlo, vhi)
  {
    var r := Advect(st, dt);
    forall i, j | 0 <= i < |r.u| && 0 <= j < |r.u[i]|
      ensures ulo <= r.u[i][j] <= uhi
    {
      NewUWithin(st, dt, i, j, ulo, uhi);
    }
    forall i, j | 0 <= i < |r.v| && 0 <= j < |r.v[i]|
      ensures vlo <= r.v[i][j] <= vhi
    {
      NewVWithin(st, dt, i, j, vlo, vhi);
    }
  }

  /** A new u value lies within any bounds of the old u. */
  lemma NewUWithin(st: State, dt: real, i: nat, j: nat, lo: real, hi: real)
    requires WellFormed(st) && i <= st.w && j < st.h && Bounded(st.u, lo, hi)
    ensures lo <= NewU(st, dt, i, j) <= hi
  {
    if 1 <= i < st.w && OpenU(st.s, st.w, st.h, i, j) {
      var x := i as real * H - dt * st.u[i][j];
      var y := j as real * H + 0.5 * H - dt * AvgV(st.v, st.w, st.h, i, j);
      SampleWithin(st.u, st.w, st.h, 0.0, H / 2.0, x, y, lo, hi);
    }
  }

  /** A new v value lies within any bounds of the old v. */
  lemma NewVWithin(st: State, dt: real, i: nat, j: nat, lo: real, hi: real)
    requires WellFormed(st) && i < st.w && j <= st.h && Bounded(st.v, lo, hi)
    ensures lo <= NewV(st, dt, i, j) <= hi
  {
    if 1 <= j < st.h && OpenV(st.s, st.w, st.h, i, j) {
      var x := i as real * H + 0.5 * H - dt * AvgU(st.u, st.w, st.h, i, j);
      var y := j as real * H - dt * st.v[i][j];
      SampleWithin(st.v, st.w, st.h, H / 2.0, 0.0, x, y, lo, hi);
    }
  }

  // ---------------------------------------------------------------------
  // Smoke advection

  /** The new smoke of cell (i, j): for an interior FLUID cell, trace its
      centre back by dt along the cell-centred velocity and resample the
      pre-step smoke there. */
  function NewSmoke(st: State, dt: real, i: nat, j: nat): (r: real)
    requires WellFormed(st) && i < st.w && j < st.h
    ensures !(1 <= i && 1 <= j && st.s[i][j] == FLUID) ==> r == st.smoke[i][j]
  {
    if 1 <= i && 1 <= j && st.s[i][j] == FLUID then
      var u := 0.5 * (st.u[i][j] + st.u[i + 1][j]);
      var v := 0.5 * (st.v[i][j] + st.v[i][j + 1]);
      var x := i as real * H + 0.5 * H - dt * u;
      var y := j as real * H + 0.5 * H - dt * v;
      Sample(st.smoke, st.w, st.h, H / 2.0, H / 2.0, x, y)
    else st.smoke[i][j]
  }

  /** `smoke_advection`: column 0, row 0 and every non-FLUID cell keep their
      smoke; column w-1 and row h-1 are not excluded. */
  function AdvectSmoke(st: State, dt: real): (r: State)
    requires WellFormed(st)
    ensures WellFormed(r) && r.(smoke := st.smoke) == st
    ensures forall i, j :: 0 <= i < st.w && 0 <= j < st.h && (i == 0 || j == 0 || st.s[i][j] != FLUID) ==>
              r.smoke[i][j] == st.smoke[i][j]
  {
    st.(smoke := seq(st.w, i requires 0 <= i < st.w => seq(st.h, j requires 0 <= j < st.h => NewSmoke(st, dt, i, j))))
  }

  /** Maximum principle for smoke advection. */
  lemma AdvectSmokeWithin(st: State, dt: real, lo: real, hi: real)
    requires WellFormed(st) && Bounded(st.smoke, lo, hi)
    ensures Bounded(AdvectSmoke(st, dt).smoke, lo, hi)
  {
    var r := AdvectSmoke(st, dt);
    forall i, j | 0 <= i < |r.smoke| && 0 <= j < |r.smoke[i]|
      ensures lo <= r.smoke[i][j] <= hi
    {
      if 1 <= i && 1 <= j && st.s[i][j] == FLUID {
        var x := i as real * H + 0.5 * H - dt * (0.5 * (st.u[i][j] + st.u[i + 1][j]));
        var y := j as real * H + 0.5 * H - dt * (0.5 * (st.v[i][j] + st.v[i][j + 1]));
        SampleWithin(st.smoke, st.w, st.h, H / 2.0, H / 2.0, x, y, lo, hi);
      }
    }
  }

  // ---------------------------------------------------------------------
  // A whole step

  /** `step` (WITH_GRAVITY is false): projection, then velocity advection,
      then smoke advection. */
  function Step(st: State): (r: State)
    requires WellFormed(st)
    ensures WellFormed(r) && r.w == st.w && r.h == st.h && r.s == st.s
  {
    AdvectSmoke(Advect(Project(st, DT), DT), DT)
  }

  /** Over a whole step smoke obeys the maximum principle: projection and
      velocity advection leave it alone. */
  lemma StepSmokeWithin(st: State, lo: real, hi: real)
    requires WellFormed(st) && Bounded(st.smoke, lo, hi)
    ensures Bounded(Step(st).smoke, lo, hi)
  {
    var a := Advect(Project(st, DT), DT);
    assert a.smoke == st.smoke;
    AdvectSmokeWithin(a, DT, lo, hi);
  }

  // ---------------------------------------------------------------------
  // Obstacles and resets

  /** `draw_obstacle`: SOLID, zero pressure and zero smoke on the disc of
      `radius`; zero velocity on the disc of `radius + 1`. */
  function DrawObstacle(st: State, cx: int, cy: int, radius: real): (r: State)
    requires WellFormed(st)
    ensures WellFormed(r) && r.w == st.w && r.h == st.h
    ensures forall x, y :: 0 <= x < st.w && 0 <= y < st.h ==>
              && (r.s[x][y] == if InDisc(cx, cy, radius, x, y) then SOLID else st.s[x][y])
              && (r.p[x][y] == if InDisc(cx, cy, radius, x, y) then 0.0 else st.p[x][y])
              && (r.smoke[x][y] == if InDisc(cx, cy, radius, x, y) then 0.0 else st.smoke[x][y])
    ensures forall x, y :: 0 <= x <= st.w && 0 <= y < st.h ==>
              r.u[x][y] == if InDisc(cx, cy, radius + 1.0, x, y) then 0.0 else st.u[x][y]
    ensures forall x, y :: 0 <= x < st.w && 0 <= y <= st.h ==>
              r.v[x][y] == if InDisc(cx, cy, radius + 1.0, x, y) then 0.0 else st.v[x][y]
  {
    st.(s := Stamp(st.s, cx, cy, radius, SOLID),
        p := Stamp(st.p, cx, cy, radius, 0.0),
        smoke := Stamp(st.smoke, cx, cy, radius, 0.0),
        u := Stamp(st.u, cx, cy, radius + 1.0, 0.0),
        v := Stamp(st.v, cx, cy, radius + 1.0, 0.0))
  }

  /** Drawing an obstacle never turns a SOLID cell back into FLUID. */
  lemma DrawObstacleKeepsSolid(st: State, cx: int, cy: int, radius: real)
    requires WellFormed(st)
    ensures forall x, y :: 0 <= x < st.w && 0 <= y < st.h && st.s[x][y] == SOLID ==>
              DrawObstacle(st, cx, cy, radius).s[x][y] == SOLID
  {
  }

  /** Drawing the same obstacle twice is drawing it once. */
  lemma DrawObstacleIdempotent(st: State, cx: int, cy: int, radius: real)
    requires WellFormed(st)
    ensures DrawObstacle(DrawObstacle(st, cx, cy, radius), cx, cy, radius) == DrawObstacle(st, cx, cy, radius)
  {
    StampIdempotent(st.s, cx, cy, radius, SOLID);
    StampIdempotent(st.p, cx, cy, radius, 0.0);
    StampIdempotent(st.smoke, cx, cy, radius, 0.0);
    StampIdempotent(st.u, cx, cy, radius + 1.0, 0.0);
    StampIdempotent(st.v, cx, cy, radius + 1.0, 0.0);
  }

  /** `reset_except_walls`: the constructor's fields around the current mask. */
  function ResetExceptWalls(st: State): (r: State)
    requires WellFormed(st) && st.h >= 73
    ensures WellFormed(r) && r.s == st.s && r.(s := Initial(st.w, st.h).s) == Initial(st.w, st.h)
  {
    Initial(st.w, st.h).(s := st.s)
  }

  // ---------------------------------------------------------------------
  // Speed

  /** The squared speed at the centre of cell (i, j). */
  function CellSpeedSquared(st: State, i: nat, j: nat): (r: real)
    requires WellFormed(st) && i < st.w && j < st.h
    ensures r >= 0.0
  {
    var u := 0.5 * (st.u[i][j] + st.u[i + 1][j]);
    var v := 0.5 * (st.v[i][j] + st.v[i][j + 1]);
    MulNonneg(if u >= 0.0 then u else -u, if u >= 0.0 then u else -u);
    MulNonneg(if v >= 0.0 then v else -v, if v >= 0.0 then v else -v);
    u * u + v * v
  }

  /** The speeds of row j, left to right. */
  function SpeedRow(st: State, j: nat): (r: seq<real>)
    requires WellFormed(st) && j < st.h
    ensures |r| == st.w
  {
    seq(st.w, i requires 0 <= i < st.w => CellSpeedSquared(st, i, j))
  }

  /** Where row j starts in a row-major layout of w-wide rows. */
  function RowStart(j: nat, w: nat): (k: nat)
    ensures j > 0 ==> k >= w
  {
    if j == 0 then 0 else RowStart(j - 1, w) + w
  }

  /** The speeds of rows 0 .. n - 1, row after row. */
  function SpeedRows(st: State, n: nat): (r: seq<real>)
    requires WellFormed(st) && n <= st.h
    ensures |r| == RowStart(n, st.w)
  {
    if n == 0 then [] else SpeedRows(st, n - 1) + SpeedRow(st, n - 1)
  }

  lemma {:induction false} RowStartIsProduct(j: nat, w: nat)
    ensures RowStart(j, w) == j * w
  {
    if j > 0 {
      RowStartIsProduct(j - 1, w);
    }
  }

  /** Row j ends no later than row k starts, j < k. */
  lemma {:induction false} RowBefore(j: nat, k: nat, w: nat)
    requires j < k
    ensures RowStart(j, w) + w <= RowStart(k, w)
  {
    if j < k - 1 {
      RowBefore(j, k - 1, w);
    }
  }

  /** In the speeds of rows 0 .. n - 1, cell (i, j) sits at RowStart(j, w) + i. */
  lemma {:induction false} SpeedRowsAt(st: State, n: nat, i: nat, j: nat)
    requires WellFormed(st) && n <= st.h && i < st.w && j < n
    ensures RowStart(j, st.w) + i < |SpeedRows(st, n)|
    ensures SpeedRows(st, n)[RowStart(j, st.w) + i] == CellSpeedSquared(st, i, j)
  {
    var prev := SpeedRows(st, n - 1);
    assert SpeedRows(st, n) == prev + SpeedRow(st, n - 1);
    if j < n - 1 {
      SpeedRowsAt(st, n - 1, i, j);
      RowBefore(j, n - 1, st.w);
    }
  }

  /** `get_speed` lists w * h speeds row-major: cell (i, j) at j * w + i. */
  lemma SpeedRowsLayout(st: State, i: nat, j: nat)
    requires WellFormed(st) && i < st.w && j < st.h
    ensures |SpeedRows(st, st.h)| == st.h * st.w
    ensures j * st.w + i < st.h * st.w
    ensures SpeedRows(st, st.h)[j * st.w + i] == CellSpeedSquared(st, i, j)
  {
    SpeedRowsAt(st, st.h, i, j);
    RowStartIsProduct(st.h, st.w);
    RowStartIsProduct(j, st.w);
  }

}
