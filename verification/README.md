# eulr simulation engine in Dafny

This project models `Simulation` from `src/sim.rs` of eulr, a real-time
2D incompressible-flow solver. It uses stable fluids on a staggered (MAC)
grid. A simulation of `width` by `height` cells owns five grids:

- `u`: x-velocity on the vertical faces, (w+1) x h;
- `v`: y-velocity on the horizontal faces, w x (h+1);
- `s`: the FLUID/SOLID mask;
- `p`: pressure;
- `smoke`: a passive dye.

The engine has two kinds of operations. One kind only reads the state: `s`,
`open_u`, `open_v`, `avg_u`, `avg_v`, the three bilinear samplers and
`get_speed`. The other kind changes the grids in place: `new`, `gravitation`,
`projection`, `advection`, `smoke_advection`, `step`, `draw_obstacle`,
`reset` and `reset_except_walls`.

The model has four files.

- `grid.dfy` (module `Grid`) models the dense grid.
  - `array2<real>` stands for `Array2D<f64>`. `Field` is its value, indexed
    `f[x][y]`.
  - `Mirrors(a, f)` ties an array to its value.
  - It has the in-place grid operations that `sim.rs` calls: new, fill,
    zero, clone, `fill_circle` and indexed writes.
- `fields.dfy` (module `Fields`) holds the read-only part.
  - It has the constants, the `State` value of all five grids, and the
    classification query `S`.
  - It has the face tests and the face averages.
  - It has one sampler `Sample`. The three `sample_*` methods that the macro
    generates are instances of it, with offsets (0, H/2), (H/2, 0) and
    (H/2, H/2).
- `passes.dfy` (module `Passes`) holds a function for each state-changing
  pass. The function gives the state the pass leaves, as a value of the
  state before it. The properties of the passes are proved about these
  functions.
- `simulation.dfy` (module `Sim`) holds the passes as imperative code over
  arrays.
  - The loops keep the source's visit order: rows bottom to top, and
    left to right within a row.
  - Each method is proved to leave its arrays holding the value that the
    matching `Passes` function computes.
  - `class Simulation` has the source's seven fields. Each of its methods runs
    a pass on its own grids and ensures `Model() == F(old(Model()))` for the
    pass's function `F`.

`f64` is modelled as `real`. Every value is exact, and there is no NaN,
infinity or rounding.

Projection is 100 Gauss-Seidel sweeps. A sweep visits every cell in row-major
order, and each cell reads the values that earlier cells of the same sweep
have already written. The model keeps this.
- `Passes.RelaxCell` is one cell update.
- `RowPass`, `SweepPass` and `Sweeps` fold `RelaxCell` over the exact visit
  order.
- The in-place loops carry `Holds(u, v, p, RowPass(st, dt, y, x))` as their
  invariant.

The two advection passes compute every new value from the state before the
step, and write into clones. Their loops carry an `Overlay` invariant: entries already
visited hold the new value, and all others still hold the old one.

Some behaviour of the code is worth stating plainly, because a reader of
the solver might expect otherwise.

- **The inflow columns are not pinned.** Construction sets `u[0, _]` and
  `u[w, _]` to WINDSPEED, and advection keeps them (`Passes.Advect`).
  Projection does not keep them.
  - Relaxing the FLUID cell (0, y) adds `d * s1 / s` to `u[0, y]`, where `s1`
    is the SOLID weight `-EPSILON`, which is not 0.
  - `Passes.RelaxCellMovesInflow` proves that the face moves exactly when the
    cell's divergence is non-zero.
- **`new` panics for heights below 73.** The dye-band loop indexes rows
  `center - i` and `center + i`.
  - `Passes.BandsFitIff` proves that these rows stay inside the grid exactly
    when `height >= 73`. Below that, the `usize` subtraction or the grid
    index panics, so a 10 x 10 simulation cannot be built.
  - The constructor, `Passes.Initial` and everything built on it therefore
    require `h >= 73`.
- **A sampling weight can be 1.** When the lower index is clamped to the
  last stored sample, the sampler's fractional weight is exactly 1, not below
  1 (`Fields.AxisOf`).
- **Sampling on column 0 or row 0 does not return the stored sample.** The
  position is clamped to at least H first. For the u field, say, a sample at
  (0, j*H + H/2) reads column 1, not column 0. So the round trip
  `Fields.SampleAtStoredPoint` holds only for `1 <= i` and `1 <= j`.
- **`s` has a wide probe domain.** It does not panic on a point whose x is -1
  or w, whatever its y, or whose y is -1 or h, whatever its x.
  `Fields.Probeable` is this domain, which is wider than the box
  [-1, w] x [-1, h].
- **The enclosed-cell skip is dead code.** The skip in projection when the
  weight sum `s == 0.0` is never taken while the mask is two-valued.
  `Passes.WeightSumNonzero` proves that the sum is `k - (4 - k) * EPSILON`
  for k FLUID neighbours.
- **Advection reads the buffer it writes, safely.** The u-face (i, j) reads
  its own velocity from the clone `new_u` it is filling (likewise for v).
  `Sim.AdvectUFace` and `Sim.AdvectVFace` read it from the array and prove
  that it still holds the pre-step value, because each face is written only
  at its own visit.

## Model

| member | source | states |
|---|---|---|
| Fields.S | src/sim.rs:137-148 | Inside the grid, the stored classification. On the one-cell margin (x = -1 or w, or y = -1 or h), SOLID. With a two-valued mask, the result is FLUID or SOLID. The precondition is the domain on which `s` does not panic. |
| Fields.OpenU | src/sim.rs:150-152 | True iff 1 <= x < w, y < h and cells (x, y) and (x - 1, y) are both FLUID. |
| Fields.OpenV | src/sim.rs:153-155 | True iff x < w, 1 <= y < h and cells (x, y) and (x, y - 1) are both FLUID. |
| Fields.AvgU | src/sim.rs:157-159 | The average of the four u-faces around a v-face lies between their minimum and maximum. |
| Fields.AvgV | src/sim.rs:160-162 | The average of the four v-faces around a u-face lies between their minimum and maximum. |
| Fields.Clamp | src/sim.rs:35-36 | The clamped position lies in [H, n*H], and a position already in that range is unchanged. |
| Fields.AxisOf | src/sim.rs:38-44 | The chosen indices are below n, with hi <= lo + 1. The weight lies in [0, 1] and is 1 only when both indices were clamped to n - 1. lo*H + t*H reconstructs the clamped position minus the offset. |
| Fields.BlendIsLerpOfLerps | src/sim.rs:46-52 | The four-term blend equals interpolation along x, then along y. |
| Fields.BlendBounds | src/sim.rs:46-52 | With weights in [0, 1], the blend lies between the least and the greatest of its four samples. |
| Fields.Sample | src/sim.rs:31-56 | `sample_u`, `sample_v` and `sample_smoke` (lines 164-166): the result lies between the least and the greatest of the four stored samples it blends, and only indices below w and h are read. |
| Fields.SampleWithin | src/sim.rs:31-56 | Sampling a field bounded by [lo, hi] gives a value in [lo, hi]. |
| Fields.SampleAtStoredPoint | src/sim.rs:31-56 | Sampling exactly at an interior stored sample (i*H + dx, j*H + dy) returns that sample. |
| Fields.SampleClampIdempotent | src/sim.rs:35-36 | Sampling anywhere equals sampling at the clamped position. |
| Passes.BandsFitIff | src/sim.rs:76-84 | Every row that the dye-band loop writes lies inside the grid iff height >= 73. |
| Passes.CoveredIsBandRow | src/sim.rs:76-84 | Every row marked as dyed is one that the band loop writes, for some band k and offset i < BAND_WIDTH. |
| Passes.Initial | src/sim.rs:59-95 | `new(w, h)`, for exactly the sizes it accepts without panicking (w >= 1, h >= 73), gives a well-formed state of the requested size. |
| Passes.InitialFields | src/sim.rs:59-95 | For w >= 1 and h >= 73, after construction u is WINDSPEED on columns 0 and w and 0 elsewhere. v and p are 0, and every cell is FLUID. Smoke is 1 exactly on the dye rows of column 0, and 0 elsewhere. |
| Passes.Gravitate | src/sim.rs:97-105 | Only v changes. Every face that is not an open face of rows 0 .. h - 1 keeps its value, including rows 0 and h. |
| Passes.WeightSumNonzero | src/sim.rs:118-125 | The neighbour weight sum is k - (4 - k)*EPSILON for k FLUID neighbours, so it is never 0. |
| Passes.RelaxCell | src/sim.rs:112-131 | One cell update keeps the shapes, the mask and the smoke. |
| Passes.RelaxCellKeeps | src/sim.rs:112-131 | One cell update writes only u- and v-faces that bound a FLUID cell, and only the pressure of a FLUID cell. |
| Passes.RowPass | src/sim.rs:111-132 | The x-loop of one row: cells (0, y) .. (n - 1, y) relaxed left to right, each seeing the previous cells' writes. It keeps the shapes, the mask and the smoke. |
| Passes.SweepPass | src/sim.rs:110-133 | The y-loop: rows 0 .. n - 1, bottom to top, each a full RowPass. It keeps the shapes, the mask and the smoke. |
| Passes.Sweeps | src/sim.rs:109-134 | n iterations of the sweep, each starting from the previous one's result. It keeps the shapes, the mask and the smoke. |
| Passes.RowPassKeeps | src/sim.rs:111-133 | The same, for a row of cell updates in order. |
| Passes.SweepPassKeeps | src/sim.rs:110-133 | The same, for one full row-major sweep. |
| Passes.SweepsKeeps | src/sim.rs:109-134 | The same, for any number of sweeps. |
| Passes.Project | src/sim.rs:107-135 | Zeroing p and then running NUM_PROJ_ITERATIONS sweeps keeps the shapes, the mask and the smoke. |
| Passes.ProjectFrame | src/sim.rs:107-135 | Projection leaves s and smoke alone. It changes u and v only on faces that bound a FLUID cell. It leaves pressure 0 in every non-FLUID cell. |
| Passes.RelaxCellMovesInflow | src/sim.rs:115-126 | At a FLUID cell (0, y), the update changes the inflow face u[0, y] iff the cell's divergence is non-zero. |
| Passes.ShareZeroIff | src/sim.rs:126-129 | A face's share d*weight/sum is 0 iff d or the weight is 0. |
| Passes.Advect | src/sim.rs:177-209 | Only u and v change. Every face that is not an interior open face keeps its value, including the inflow columns u[0, _] and u[w, _]. |
| Passes.NewU | src/sim.rs:182-192 | The new value of u-face (i, j). A face that is not an interior open face keeps its value. An interior open face is traced back by dt along its own velocity and the averaged v, and resampled from the old u (`TraceU`, lines 183-191). |
| Passes.NewV | src/sim.rs:194-204 | The new value of v-face (i, j). A face that is not an interior open face keeps its value. An interior open face is traced back along the averaged u and its own velocity, and resampled from the old v (`TraceV`, lines 195-203). |
| Passes.NewUWithin | src/sim.rs:182-192 | A new u value lies within any bounds of the old u. |
| Passes.NewVWithin | src/sim.rs:194-204 | A new v value lies within any bounds of the old v. |
| Passes.AdvectWithin | src/sim.rs:177-209 | Maximum principle: after advection, u and v stay within any bounds of the old u and v. |
| Passes.NewSmoke | src/sim.rs:215-225 | The new smoke of cell (i, j). A cell on column 0 or row 0, or a non-FLUID cell, keeps its smoke. Any other cell is traced back along its cell-centred velocity and resampled from the old smoke. |
| Passes.AdvectSmoke | src/sim.rs:211-229 | Only smoke changes. Column 0, row 0 and every non-FLUID cell keep their smoke. |
| Passes.AdvectSmokeWithin | src/sim.rs:211-229 | Maximum principle: after smoke advection, smoke stays within any bounds of the old smoke. |
| Passes.Step | src/sim.rs:168-175 | A step keeps the shapes and the mask. |
| Passes.StepSmokeWithin | src/sim.rs:168-175 | Over a whole step, smoke stays within any bounds of the old smoke. |
| Passes.DrawObstacle | src/sim.rs:264-270 | Inside the disc of the given radius: SOLID, pressure 0 and smoke 0. Inside the disc of radius + 1: u and v are 0. Everything else is unchanged. |
| Passes.DrawObstacleKeepsSolid | src/sim.rs:264-270 | Drawing an obstacle never turns a SOLID cell back into FLUID. |
| Passes.DrawObstacleIdempotent | src/sim.rs:264-270 | Drawing the same obstacle twice equals drawing it once. |
| Passes.ResetExceptWalls | src/sim.rs:272-276 | For a state that `new` can build (h >= 73): keeps the mask as it is. Every other field equals the freshly constructed one. |
| Passes.CellSpeedSquared | src/sim.rs:244-246 | The squared speed at a cell centre is non-negative. |
| Passes.SpeedRows | src/sim.rs:240-250 | The first n rows of speeds have RowStart(n, w) entries. |
| Passes.SpeedRowsAt | src/sim.rs:240-250 | Cell (i, j) sits at index RowStart(j, w) + i of the speed list. |
| Passes.SpeedRowsLayout | src/sim.rs:240-250 | The speed list has w*h entries, with cell (i, j) at index j*w + i. |
| Grid.New | src/sim.rs:60 | `Array2D::new` gives a fresh w x h grid of zeros. |
| Grid.NewFilled | src/sim.rs:66 | `Array2D::fill` gives a fresh w x h grid holding the constant everywhere. |
| Grid.Zero | src/sim.rs:108 | `p.zero()` sets every entry to 0. |
| Grid.Clone | src/sim.rs:178-179 | `clone()` gives a fresh grid of the same shape and contents. |
| Grid.AddAndSubtract | src/sim.rs:126-129 | Two compound assignments to distinct entries give the field with both entries updated from their old values. |
| Grid.FillCircle | src/sim.rs:265-269 | `fill_circle` sets the entries inside the disc and leaves the others. |
| Grid.StampIdempotent | src/sim.rs:264-270 | Stamping the same disc twice equals stamping it once. |
| Sim.SeedInflow | src/sim.rs:60-64 | The inflow loop turns a zero u grid into the u of `new`. |
| Sim.SeedBands | src/sim.rs:76-84 | The band loop turns a zero smoke grid into the smoke of `new`, for height >= 73. |
| Sim.GravitateFace | src/sim.rs:100-102 | One face of the gravity loop advances the row-major overlay by one entry. |
| Sim.GravitateInPlace | src/sim.rs:97-105 | The loops of `gravitation` leave v equal to `Passes.Gravitate`. |
| Sim.CorrectCellInPlace | src/sim.rs:126-131 | The four face corrections and the pressure update of a FLUID cell give `Passes.RelaxCell`. |
| Sim.RelaxCellInPlace | src/sim.rs:112-131 | One iteration of the projection body leaves u, v and p equal to `Passes.RelaxCell` of the state before it. |
| Sim.RelaxRowInPlace | src/sim.rs:111-133 | A row of the sweep gives `Passes.RowPass`. |
| Sim.SweepInPlace | src/sim.rs:110-133 | One sweep gives `Passes.SweepPass`. |
| Sim.ProjectInPlace | src/sim.rs:107-135 | `projection` on arrays gives `Passes.Project`. |
| Sim.AdvectUFace | src/sim.rs:182-192 | One u-face of the advection loop advances the overlay of u by one entry. Its own velocity is read from the buffer being filled, which is proved to still hold the pre-step value. |
| Sim.AdvectVFace | src/sim.rs:194-204 | One v-face of the advection loop advances the overlay of v by one entry. Its own velocity is read from the buffer being filled, which is proved to still hold the pre-step value. |
| Sim.AdvectInto | src/sim.rs:178-206 | The loops of `advection` over clones of u and v leave them equal to `Passes.Advect`. |
| Sim.AdvectSmokeCell | src/sim.rs:215-225 | One cell of the smoke loop advances the overlay of smoke by one entry. |
| Sim.AdvectSmokeInto | src/sim.rs:212-227 | The loops of `smoke_advection` over a clone of smoke leave it equal to `Passes.AdvectSmoke`. |
| Sim.Simulation.constructor | src/sim.rs:59-95 | `new(w, h)`, with w >= 1 and h >= 73, builds five fresh distinct grids whose value is `Passes.Initial(w, h)`. |
| Sim.Simulation.Gravitation | src/sim.rs:97-105 | The new state is `Passes.Gravitate` of the old one. |
| Sim.Simulation.Projection | src/sim.rs:107-135 | The new state is `Passes.Project` of the old one. |
| Sim.Simulation.Advection | src/sim.rs:177-209 | The new state is `Passes.Advect` of the old one. The clones replace u and v. |
| Sim.Simulation.SmokeAdvection | src/sim.rs:211-229 | The new state is `Passes.AdvectSmoke` of the old one. The clone replaces smoke. |
| Sim.Simulation.Step | src/sim.rs:168-175 | The new state is `Passes.Step` of the old one: projection, velocity advection, then smoke advection. |
| Sim.Simulation.GetSpeed | src/sim.rs:240-250 | Returns the squared cell speeds row after row, which is `Passes.SpeedRows`. It changes nothing. |
| Sim.Simulation.DrawObstacle | src/sim.rs:264-270 | The new state is `Passes.DrawObstacle` of the old one. |
| Sim.Simulation.Reset | src/sim.rs:278-280 | The new state is `Passes.Initial` of the same size, with fresh grids. |
| Sim.Simulation.ResetExceptWalls | src/sim.rs:272-276 | The new state is `Passes.ResetExceptWalls` of the old one. |

## Left out

- `src/vis.rs` is not part of this model: window, input and rendering.
- `crate::util` (`Array2D`) is not part of this model. `Grid` stands in for it:
  - indexing is `a[x, y]`, checked on each coordinate;
  - `fill_circle` stamps the disc `(x - cx)^2 + (y - cy)^2 <= r^2` (`Grid.InDisc`).
- `Grid.InDisc`: the disc test of `fill_circle` cannot be checked, and its
  `i32` centre and `f32` radius are modelled as `int` and `real`. No proved
  property depends on the shape of the disc.
- Floating point is modelled as exact `real` arithmetic. Rounding, NaN and
  infinities are not modelled.
- `Sim.Simulation.GetSpeed`: it returns the squared speed `u*u + v*v` of each
  cell. `real` has no square root, and `sqrt` is monotone on these
  non-negative values.
- `Passes.Project`: requires `dt != 0`, because the pressure update divides
  by `dt`. The source only ever passes `DT = 0.22`.
- `Sim.Simulation.Projection`: requires `dt != 0`, for the same reason.
- `get_smoke`, `get_pressure` and `get_s` are left out. They return the
  grids' flat storage, whose order is fixed by `Array2D`, which is not part
  of this model.
- `cell_info` is left out, because it only prints.
- The `DRAW_OBSTACLE` branch of `new` and the `WITH_GRAVITY` branch of `step`
  are left out. Both constants are `false`, so `new` draws no obstacle and
  `step` does not call `gravitation`. `gravitation` is modelled on its own.
- Casts are assumed not to wrap. The `usize`-to-`i32` casts in `s`, `open_u`
  and `open_v` are assumed to be exact.
- Divergence reduction by projection is not proved. The model proves what
  projection writes and in which order, but not its numerical effect.
