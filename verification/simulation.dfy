/** `Simulation` (`src/sim.rs`): the five grids of a staggered (MAC) grid
    and the passes that update them in place.  Each pass is first written
    over the arrays it touches, against the value of the state before it;
    the methods of the class run these passes on their own grids and are
    proved to leave the state that the matching function of `Passes`
    computes. */
module Sim {
  import opened Grid
  import opened Fields
  import opened Passes

  // ---------------------------------------------------------------------
  // Construction

  /** The inflow loop of `new`: columns 0 and w of u carry WINDSPEED. */
  method SeedInflow(u: array2<real>, w: nat, h: nat)
    requires w >= 1 && h >= 73 && u.Length0 == w + 1 && u.Length1 == h
    requires Mirrors(u, Filled(w + 1, h, 0.0))
    modifies u
    ensures Mirrors(u, Initial(w, h).u)
  {
    var y := 0;
    while y < h
      invariant 0 <= y <= h
      invariant forall i, j :: 0 <= i <= w && 0 <= j < h ==>
                  u[i, j] == if (i == 0 || i == w) && j < y then WINDSPEED else 0.0
    {
      u[0, y] := WINDSPEED;
      u[w, y] := WINDSPEED;
      y := y + 1;
    }
  }

  /** The dye loop of `new`: for each band, rows center - i and
      center + i of column 0, i < BAND_WIDTH, get smoke 1.  The rows stay
      inside the grid because h >= 73 (`Passes.BandsFitIff`). */
  method SeedBands(smoke: array2<real>, w: nat, h: nat)
    requires w >= 1 && h >= 73 && smoke.Length0 == w && smoke.Length1 == h
    requires Mirrors(smoke, Filled(w, h, 0.0))
    modifies smoke
    ensures Mirrors(smoke, Initial(w, h).smoke)
  {
    BandsFitIff(h);
    var band: nat := 0;
    while band < NUM_BANDS
      invariant 0 <= band <= NUM_BANDS
      invariant forall i, j :: 0 <= i < w && 0 <= j < h ==>
                  smoke[i, j] == if i == 0 && Covered(h, band, j) then 1.0 else 0.0
    {
      var bandSpacing := h / NUM_BANDS;
      var center := bandSpacing * band + bandSpacing / 2;
      assert center == Center(h, band);
      var i: nat := 0;
      while i < BAND_WIDTH
        invariant 0 <= i <= BAND_WIDTH
        invariant forall x, j :: 0 <= x < w && 0 <= j < h ==>
                    smoke[x, j] == if x == 0 && (Covered(h, band, j) || center - i < j < center + i) then 1.0 else 0.0
      {
        assert BandRow(h, band, i, false) == center + i;
        assert BandRow(h, band, i, true) == center - i;
        smoke[0, center + i] := 1.0;
        smoke[0, center - i] := 1.0;
        i := i + 1;
      }
      band := band + 1;
    }
  }

  // ---------------------------------------------------------------------
  // Gravity

  /** The v-face (x, y) of the loop of `gravitation`: an open face is
      accelerated by GRAVITY * dt. */
  method GravitateFace(v: array2<real>, st: State, dt: real, x: nat, y: nat)
    requires WellFormed(st) && x < st.w && y < st.h
    requires Mirrors(v, Overlay(st.v, Gravitate(st, dt).v, x, y))
    modifies v
    ensures Mirrors(v, Overlay(st.v, Gravitate(st, dt).v, x + 1, y))
  {
    ghost var goal := Gravitate(st, dt).v;
    if OpenV(st.s, st.w, st.h, x, y) {
      assert |Overlay(st.v, goal, x, y)[x]| == st.h + 1;
      Put(v, x, y, v[x, y] + GRAVITY * dt, Overlay(st.v, goal, x, y));
      OverlayWrite(st.v, goal, x, y);
    } else {
      OverlaySkip(st.v, goal, x, y);
    }
  }

  /** The loops of `gravitation` over the v grid of the state `st`: faces
      (0, 0) .. (w - 1, h - 1), row by row; row h is not visited. */
  method GravitateInPlace(v: array2<real>, st: State, dt: real)
    requires WellFormed(st) && Mirrors(v, st.v)
    modifies v
    ensures Mirrors(v, Gravitate(st, dt).v)
  {
    ghost var goal := Gravitate(st, dt).v;
    OverlayStart(st.v, goal);
    var y := 0;
    while y < st.h
      invariant 0 <= y <= st.h
      invariant Mirrors(v, Overlay(st.v, goal, 0, y))
    {
      var x := 0;
      while x < st.w
        invariant 0 <= x <= st.w
        invariant Mirrors(v, Overlay(st.v, goal, x, y))
      {
        GravitateFace(v, st, dt, x, y);
        x := x + 1;
      }
      OverlayNextRow(st.v, goal, x, y);
      y := y + 1;
    }
    OverlaySkipRow(st.v, goal, st.h);
    OverlayDone(st.v, goal, st.h + 1);
  }

  // ---------------------------------------------------------------------
  // Pressure projection

  /** The grids u, v and p hold the velocities and pressure of `st`. */
  ghost predicate Holds(u: array2<real>, v: array2<real>, p: array2<real>, st: State)
    reads u, v, p
  {
    Mirrors(u, st.u) && Mirrors(v, st.v) && Mirrors(p, st.p)
  }

  /** The writes of one Gauss-Seidel update at FLUID cell (x, y): the
      divergence correction `d` is spread over the four faces in proportion
      to the neighbour weights s1 .. s4, and the pressure is adjusted. */
  method CorrectCellInPlace(u: array2<real>, v: array2<real>, p: array2<real>, dt: real, x: nat, y: nat,
                            d: real, s1: real, s2: real, s3: real, s4: real, ghost st: State)
    requires WellFormed(st) && x < st.w && y < st.h && dt != 0.0 && st.s[x][y] == FLUID
    requires d == OVERRELAXATION_FACTOR * (st.u[x + 1][y] - st.u[x][y] + st.v[x][y + 1] - st.v[x][y])
    requires s1 == S(st.s, st.w, st.h, x as int - 1, y) && s2 == S(st.s, st.w, st.h, x + 1, y)
    requires s3 == S(st.s, st.w, st.h, x, y as int - 1) && s4 == S(st.s, st.w, st.h, x, y + 1)
    requires s1 + s2 + s3 + s4 != 0.0
    requires u != v && u != p && v != p
    requires Holds(u, v, p, st)
    modifies u, v, p
    ensures Holds(u, v, p, RelaxCell(st, dt, x, y))
  {
    MirrorsShape(p, st.p, st.w, st.h);
    MirrorsShape(u, st.u, st.w + 1, st.h);
    MirrorsShape(v, st.v, st.w, st.h + 1);
    RelaxCellUpdates(st, dt, x, y, d, s1, s2, s3, s4);
    var sum := s1 + s2 + s3 + s4;
    AddAndSubtract(u, x, y, Share(d, s1, sum), x + 1, y, Share(d, s2, sum), st.u);
    AddAndSubtract(v, x, y, Share(d, s3, sum), x, y + 1, Share(d, s4, sum), st.v);
    Put(p, x, y, p[x, y] - PressureShare(d, sum, dt), st.p);
  }

  /** One Gauss-Seidel update of cell (x, y) on the grids u, v and p (the
      body of the loops of `projection`): SOLID cells, and cells with no
      FLUID neighbour, are skipped.  `st` is the value of the state before
      it, `mask` its cell mask. */
  method RelaxCellInPlace(u: array2<real>, v: array2<real>, p: array2<real>, mask: Field, dt: real, x: nat, y: nat, ghost st: State)
    requires WellFormed(st) && mask == st.s && x < st.w && y < st.h && dt != 0.0
    requires u != v && u != p && v != p
    requires Holds(u, v, p, st)
    modifies u, v, p
    ensures Holds(u, v, p, RelaxCell(st, dt, x, y))
  {
    if mask[x][y] != FLUID {
      return;
    }
    var w, h := p.Length0, p.Length1;
    MirrorsShape(p, st.p, st.w, st.h);
    MirrorsShape(u, st.u, st.w + 1, st.h);
    MirrorsShape(v, st.v, st.w, st.h + 1);
    var d := OVERRELAXATION_FACTOR * (u[x + 1, y] - u[x, y] + v[x, y + 1] - v[x, y]);
    var s1 := S(mask, w, h, x - 1, y);
    var s2 := S(mask, w, h, x + 1, y);
    var s3 := S(mask, w, h, x, y - 1);
    var s4 := S(mask, w, h, x, y + 1);
    if s1 + s2 + s3 + s4 == 0.0 {
      return;
    }
    CorrectCellInPlace(u, v, p, dt, x, y, d, s1, s2, s3, s4, st);
  }

  /** One row y of a sweep: cells (0, y) .. (w - 1, y), left to right. */
  method RelaxRowInPlace(u: array2<real>, v: array2<real>, p: array2<real>, mask: Field, dt: real, y: nat, ghost st: State)
    requires WellFormed(st) && mask == st.s && y < st.h && dt != 0.0
    requires u != v && u != p && v != p
    requires Holds(u, v, p, st)
    modifies u, v, p
    ensures Holds(u, v, p, RowPass(st, dt, y, st.w))
  {
    MirrorsShape(p, st.p, st.w, st.h);
    var x: nat := 0;
    while x < p.Length0
      invariant 0 <= x <= st.w
      invariant Holds(u, v, p, RowPass(st, dt, y, x))
    {
      RelaxCellInPlace(u, v, p, mask, dt, x, y, RowPass(st, dt, y, x));
      x := x + 1;
    }
  }

  /** One sweep: rows 0 .. h - 1, bottom to top. */
  method SweepInPlace(u: array2<real>, v: array2<real>, p: array2<real>, mask: Field, dt: real, ghost st: State)
    requires WellFormed(st) && mask == st.s && dt != 0.0
    requires u != v && u != p && v != p
    requires Holds(u, v, p, st)
    modifies u, v, p
    ensures Holds(u, v, p, SweepPass(st, dt, st.h))
  {
    MirrorsShape(p, st.p, st.w, st.h);
    var y: nat := 0;
    while y < p.Length1
      invariant 0 <= y <= st.h
      invariant Holds(u, v, p, SweepPass(st, dt, y))
    {
      RelaxRowInPlace(u, v, p, mask, dt, y, SweepPass(st, dt, y));
      y := y + 1;
    }
  }

  /** `projection` on the grids u, v and p of the state `st`: zero p, then
      NUM_PROJ_ITERATIONS sweeps. */
  method ProjectInPlace(u: array2<real>, v: array2<real>, p: array2<real>, mask: Field, dt: real, ghost st: State)
    requires WellFormed(st) && mask == st.s && dt != 0.0
    requires u != v && u != p && v != p
    requires Holds(u, v, p, st)
    modifies u, v, p
    ensures Holds(u, v, p, Project(st, dt))
  {
    MirrorsShape(p, st.p, st.w, st.h);
    Zero(p);
    ghost var start := st.(p := Filled(st.w, st.h, 0.0));
    var iteration: nat := 0;
    while iteration < NUM_PROJ_ITERATIONS
      invariant 0 <= iteration <= NUM_PROJ_ITERATIONS
      invariant Holds(u, v, p, Sweeps(start, dt, iteration))
    {
      SweepInPlace(u, v, p, mask, dt, Sweeps(start, dt, iteration));
      iteration := iteration + 1;
    }
  }

  // ---------------------------------------------------------------------
  // Advection

  /** The u-face (i, j) of one pass of `advection` over the clone newU:
      an open interior face reads its own velocity from newU, which the pass
      has not yet written there, and gets its back-traced value. */
  method AdvectUFace(newU: array2<real>, st: State, dt: real, i: nat, j: nat)
    requires WellFormed(st) && i <= st.w && j <= st.h
    requires Mirrors(newU, Overlay(st.u, Advect(st, dt).u, i, j))
    modifies newU
    ensures Mirrors(newU, Overlay(st.u, Advect(st, dt).u, i + 1, j))
  {
    ghost var goal := Advect(st, dt).u;
    if 1 <= i < st.w && OpenU(st.s, st.w, st.h, i, j) {
      var own := newU[i, j];
      assert own == st.u[i][j];
      Put(newU, i, j, TraceU(st, dt, i, j, own), Overlay(st.u, goal, i, j));
      OverlayWrite(st.u, goal, i, j);
    } else {
      OverlaySkip(st.u, goal, i, j);
    }
  }

  /** The v-face (i, j) of one pass of `advection` over the clone newV,
      reading its own velocity from newV likewise. */
  method AdvectVFace(newV: array2<real>, st: State, dt: real, i: nat, j: nat)
    requires WellFormed(st) && i <= st.w && j <= st.h
    requires Mirrors(newV, Overlay(st.v, Advect(st, dt).v, i, j))
    modifies newV
    ensures Mirrors(newV, Overlay(st.v, Advect(st, dt).v, i + 1, j))
  {
    ghost var goal := Advect(st, dt).v;
    if 1 <= j < st.h && OpenV(st.s, st.w, st.h, i, j) {
      var own := newV[i, j];
      assert own == st.v[i][j];
      Put(newV, i, j, TraceV(st, dt, i, j, own), Overlay(st.v, goal, i, j));
      OverlayWrite(st.v, goal, i, j);
    } else {
      OverlaySkip(st.v, goal, i, j);
    }
  }

  /** The loops of `advection`: newU and newV start as clones of the u and v
      of `st`, and faces (0, 0) .. (w, h) are visited row by row. */
  method AdvectInto(newU: array2<real>, newV: array2<real>, st: State, dt: real)
    requires WellFormed(st) && newU != newV
    requires Mirrors(newU, st.u) && Mirrors(newV, st.v)
    modifies newU, newV
    ensures Mirrors(newU, Advect(st, dt).u) && Mirrors(newV, Advect(st, dt).v)
  {
    ghost var goal := Advect(st, dt);
    OverlayStart(st.u, goal.u);
    OverlayStart(st.v, goal.v);
    var j := 0;
    while j <= st.h
      invariant 0 <= j <= st.h + 1
      invariant Mirrors(newU, Overlay(st.u, goal.u, 0, j))
      invariant Mirrors(newV, Overlay(st.v, goal.v, 0, j))
    {
      var i := 0;
      while i <= st.w
        invariant 0 <= i <= st.w + 1
        invariant Mirrors(newU, Overlay(st.u, goal.u, i, j))
        invariant Mirrors(newV, Overlay(st.v, goal.v, i, j))
      {
        AdvectUFace(newU, st, dt, i, j);
        AdvectVFace(newV, st, dt, i, j);
        i := i + 1;
      }
      OverlayNextRow(st.u, goal.u, i, j);
      OverlayNextRow(st.v, goal.v, i, j);
      j := j + 1;
    }
    OverlayDone(st.u, goal.u, st.h + 1);
    OverlayDone(st.v, goal.v, st.h + 1);
  }

  /** Cell (i, j) of the loops of `smoke_advection`: a FLUID cell gets its
      back-traced dye. */
  method AdvectSmokeCell(newSmoke: array2<real>, st: State, dt: real, i: nat, j: nat)
    requires WellFormed(st) && i < st.w && j < st.h
    requires Mirrors(newSmoke, Overlay(st.smoke, AdvectSmoke(st, dt).smoke, i, j))
    modifies newSmoke
    ensures Mirrors(newSmoke, Overlay(st.smoke, AdvectSmoke(st, dt).smoke, i + 1, j))
  {
    ghost var goal := AdvectSmoke(st, dt).smoke;
    if st.s[i][j] == FLUID {
      Put(newSmoke, i, j, NewSmoke(st, dt, i, j), Overlay(st.smoke, goal, i, j));
      OverlayWrite(st.smoke, goal, i, j);
    } else {
      OverlaySkip(st.smoke, goal, i, j);
    }
  }

  /** The loops of `smoke_advection`: newSmoke starts as a clone of the
      smoke of `st`; cells (1, 1) .. (w - 1, h - 1) are visited row by row. */
  method AdvectSmokeInto(newSmoke: array2<real>, st: State, dt: real)
    requires WellFormed(st) && Mirrors(newSmoke, st.smoke)
    modifies newSmoke
    ensures Mirrors(newSmoke, AdvectSmoke(st, dt).smoke)
  {
    ghost var goal := AdvectSmoke(st, dt).smoke;
    OverlayStart(st.smoke, goal);
    OverlaySkipRow(st.smoke, goal, 0);
    var j := 1;
    while j < st.h
      invariant 1 <= j <= st.h
      invariant Mirrors(newSmoke, Overlay(st.smoke, goal, 0, j))
    {
      OverlaySkip(st.smoke, goal, 0, j);
      var i := 1;
      while i < st.w
        invariant 1 <= i <= st.w
        invariant Mirrors(newSmoke, Overlay(st.smoke, goal, i, j))
      {
        AdvectSmokeCell(newSmoke, st, dt, i, j);
        i := i + 1;
      }
      OverlayNextRow(st.smoke, goal, i, j);
      j := j + 1;
    }
    OverlayDone(st.smoke, goal, st.h);
  }

  class Simulation {
    var width: nat
    var height: nat
    var u: array2<real>      // x-velocity on the vertical faces, (width + 1) x height
    var v: array2<real>      // y-velocity on the horizontal faces, width x (height + 1)
    var s: array2<real>      // FLUID or SOLID per cell
    var p: array2<real>      // pressure per cell
    var smoke: array2<real>  // dye per cell

    /** The value of all five grids. */
    function Model(): (st: State)
      reads this, u, v, s, p, smoke
      ensures st.w == width && st.h == height
      ensures Valid() ==> WellFormed(st)
    {
      State(width, height, Snapshot(u), Snapshot(v), Snapshot(s), Snapshot(p), Snapshot(smoke))
    }

    /** The grids are five distinct arrays of the staggered shapes, the mask
        is two-valued, and the dimensions are ones `new` accepts. */
    ghost predicate Valid()
      reads this, u, v, s, p, smoke
    {
      && u != v && u != s && u != p && u != smoke
      && v != s && v != p && v != smoke
      && s != p && s != smoke && p != smoke
      && width >= 1 && height >= 73
      && u.Length0 == width + 1 && u.Length1 == height
      && v.Length0 == width && v.Length1 == height + 1
      && s.Length0 == width && s.Length1 == height
      && p.Length0 == width && p.Length1 == height
      && smoke.Length0 == width && smoke.Length1 == height
      && forall x, y :: 0 <= x < width && 0 <= y < height ==> s[x, y] == FLUID || s[x, y] == SOLID
    }

    /** `Simulation::new`.  The dye-band loop indexes rows center - i and
        center + i, which stay inside the grid only when height >= 73
        (`Passes.BandsFitIff`); column 0 needs width >= 1. */
    constructor (w: nat, h: nat)
      requires w >= 1 && h >= 73
      ensures Valid() && Model() == Initial(w, h)
      ensures fresh(u) && fresh(v) && fresh(s) && fresh(p) && fresh(smoke)
    {
      var u0 := New(w + 1, h);
      SeedInflow(u0, w, h);
      var s0 := NewFilled(FLUID, w, h);
      var smoke0 := New(w, h);
      SeedBands(smoke0, w, h);
      var v0 := New(w, h + 1);
      var p0 := New(w, h);
      width, height := w, h;
      u, v, s, p, smoke := u0, v0, s0, p0, smoke0;
      new;
      ghost var init := Initial(w, h);
      MirrorsUnique(u, Snapshot(u), init.u);
      MirrorsUnique(v, Snapshot(v), init.v);
      MirrorsUnique(s, Snapshot(s), init.s);
      MirrorsUnique(p, Snapshot(p), init.p);
      MirrorsUnique(smoke, Snapshot(smoke), init.smoke);
    }

    /** `gravitation`: accelerate every open v-face by GRAVITY * dt. */
    method Gravitation(dt: real)
      requires Valid()
      modifies v
      ensures Valid() && Model() == Gravitate(old(Model()), dt)
    {
      var st := Model();
      GravitateInPlace(v, st, dt);
      MirrorsUnique(v, Snapshot(v), Gravitate(st, dt).v);
    }

    /** `projection`, in place on this simulation's grids. */
    method Projection(dt: real)
      requires Valid() && dt != 0.0
      modifies u, v, p
      ensures Valid() && Model() == Project(old(Model()), dt)
    {
      var st := Model();
      ProjectInPlace(u, v, p, st.s, dt, st);
      ghost var goal := Project(st, dt);
      MirrorsUnique(u, Snapshot(u), goal.u);
      MirrorsUnique(v, Snapshot(v), goal.v);
      MirrorsUnique(p, Snapshot(p), goal.p);
    }

    /** `advection`: the new values go into clones of u and v, which then
        replace the live grids. */
    method Advection(dt: real)
      requires Valid()
      modifies this
      ensures Valid() && Model() == Advect(old(Model()), dt)
      ensures s == old(s) && p == old(p) && smoke == old(smoke)
    {
      var st := Model();
      var newU := Clone(u);
      var newV := Clone(v);
      AdvectInto(newU, newV, st, dt);
      u := newU;
      v := newV;
      MirrorsUnique(u, Snapshot(u), Advect(st, dt).u);
      MirrorsUnique(v, Snapshot(v), Advect(st, dt).v);
    }

    /** `smoke_advection`: the new dye goes into a clone of smoke, which then
        replaces the live grid. */
    method SmokeAdvection(dt: real)
      requires Valid()
      modifies this
      ensures Valid() && Model() == AdvectSmoke(old(Model()), dt)
      ensures u == old(u) && v == old(v) && s == old(s) && p == old(p)
    {
      var st := Model();
      var newSmoke := Clone(smoke);
      AdvectSmokeInto(newSmoke, st, dt);
      smoke := newSmoke;
      MirrorsUnique(smoke, Snapshot(smoke), AdvectSmoke(st, dt).smoke);
    }

    /** `step`: projection, velocity advection, smoke advection (gravity is
        compiled out: WITH_GRAVITY is false). */
    method Step()
      requires Valid()
      modifies this, u, v, p
      ensures Valid() && Model() == Passes.Step(old(Model()))
    {
      Projection(DT);
      Advection(DT);
      SmokeAdvection(DT);
    }

    /** `get_speed`: one value per cell, row after row (the square root is
        not taken, see the README). */
    method GetSpeed() returns (speed: seq<real>)
      requires Valid()
      ensures speed == SpeedRows(Model(), height)
    {
      ghost var st := Model();
      speed := [];
      var j := 0;
      while j < height
        invariant 0 <= j <= height
        invariant speed == SpeedRows(st, j)
      {
        var i := 0;
        while i < width
          invariant 0 <= i <= width
          invariant speed == SpeedRows(st, j) + SpeedRow(st, j)[..i]
        {
          var uCentre := 0.5 * (u[i, j] + u[i + 1, j]);
          var vCentre := 0.5 * (v[i, j] + v[i, j + 1]);
          assert uCentre * uCentre + vCentre * vCentre == SpeedRow(st, j)[i];
          assert SpeedRow(st, j)[..i + 1] == SpeedRow(st, j)[..i] + [SpeedRow(st, j)[i]];
          speed := speed + [uCentre * uCentre + vCentre * vCentre];
          i := i + 1;
        }
        assert SpeedRow(st, j)[..width] == SpeedRow(st, j);
        j := j + 1;
      }
    }

    /** `draw_obstacle`: stamp a SOLID disc, clear pressure and smoke on it,
        and clear velocity on the disc one unit wider. */
    method DrawObstacle(centerX: int, centerY: int, radius: real)
      requires Valid()
      modifies s, p, smoke, u, v
      ensures Valid() && Model() == Passes.DrawObstacle(old(Model()), centerX, centerY, radius)
    {
      ghost var goal := Passes.DrawObstacle(Model(), centerX, centerY, radius);
      FillCircle(s, centerX, centerY, radius, SOLID);
      FillCircle(p, centerX, centerY, radius, 0.0);
      FillCircle(smoke, centerX, centerY, radius, 0.0);
      FillCircle(u, centerX, centerY, radius + 1.0, 0.0);
      FillCircle(v, centerX, centerY, radius + 1.0, 0.0);
      MirrorsUnique(s, Snapshot(s), goal.s);
      MirrorsUnique(p, Snapshot(p), goal.p);
      MirrorsUnique(smoke, Snapshot(smoke), goal.smoke);
      MirrorsUnique(u, Snapshot(u), goal.u);
      MirrorsUnique(v, Snapshot(v), goal.v);
    }

    /** `reset`: replace everything by a freshly constructed simulation of
        the same size (runtime obstacles are discarded). */
    method Reset()
      requires Valid()
      modifies this
      ensures Valid() && Model() == Initial(old(width), old(height))
      ensures fresh(u) && fresh(v) && fresh(s) && fresh(p) && fresh(smoke)
    {
      var next := new Simulation(width, height);
      ghost var init := next.Model();
      u, v, s, p, smoke := next.u, next.v, next.s, next.p, next.smoke;
      assert Model() == init;
    }

    /** `reset_except_walls`: reset, but keep a copy of the mask. */
    method ResetExceptWalls()
      requires Valid()
      modifies this
      ensures Valid() && Model() == Passes.ResetExceptWalls(old(Model()))
    {
      var oldS := Clone(s);
      Reset();
      s := oldS;
      MirrorsUnique(s, Snapshot(s), old(Model()).s);
    }
  }
}
