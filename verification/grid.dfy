/** The dense two-dimensional grid the simulation stores its fields in
    (`Array2D` in `crate::util`).  A grid is an `array2<real>` indexed
    `a[x, y]` with `a.Length0` columns and `a.Length1` rows; `Field` is its
    read-only value view, indexed `f[x][y]`. */
module Grid {

  type Field = seq<seq<real>>

  /** `f` has `w` columns of `h` entries each. */
  ghost predicate Shaped(f: Field, w: nat, h: nat) {
    |f| == w && forall x :: 0 <= x < w ==> |f[x]| == h
  }

  /** The array `a` holds exactly the values of `f`. */
  ghost predicate Mirrors(a: array2<real>, f: Field)
    reads a
  {
    Shaped(f, a.Length0, a.Length1) &&
    forall x, y :: 0 <= x < a.Length0 && 0 <= y < a.Length1 ==> a[x, y] == f[x][y]
  }

  /** The current contents of `a`, as a value. */
  function Snapshot(a: array2<real>): (f: Field)
    reads a
    ensures Mirrors(a, f)
  {
    seq(a.Length0, x requires 0 <= x < a.Length0 reads a =>
      seq(a.Length1, y requires 0 <= y < a.Length1 reads a => a[x, y]))
  }

  /** An array mirrors exactly one field. */
  lemma MirrorsUnique(a: array2<real>, f: Field, g: Field)
    requires Mirrors(a, f) && Mirrors(a, g)
    ensures f == g
  {
    forall x | 0 <= x < |f|
      ensures f[x] == g[x]
    {
      assert |f[x]| == |g[x]| == a.Length1;
    }
  }

  /** An array mirroring a `w` by `h` field with w >= 1 is `w` by `h`. */
  lemma MirrorsShape(a: array2<real>, f: Field, w: nat, h: nat)
    requires Mirrors(a, f) && Shaped(f, w, h) && w >= 1
    ensures a.Length0 == w && a.Length1 == h
  {
    assert |f[0]| == h;
  }

  /** A `w` by `h` field holding `c` everywhere. */
  function Filled(w: nat, h: nat, c: real): (f: Field)
    ensures Shaped(f, w, h)
    ensures forall x, y :: 0 <= x < w && 0 <= y < h ==> f[x][y] == c
  {
    seq(w, x => seq(h, y => c))
  }

  /** `f` with entry (x, y) replaced by `c`. */
  function Set(f: Field, x: nat, y: nat, c: real): (g: Field)
    requires x < |f| && y < |f[x]|
    ensures |g| == |f| && forall i :: 0 <= i < |f| ==> |g[i]| == |f[i]|
    ensures forall i, j :: 0 <= i < |f| && 0 <= j < |f[i]| ==>
              g[i][j] == if i == x && j == y then c else f[i][j]
  {
    f[x := f[x][y := c]]
  }

  /** `f` and `g` have the same columns of the same lengths. */
  ghost predicate SameShape(f: Field, g: Field) {
    |g| == |f| && forall x :: 0 <= x < |f| ==> |g[x]| == |f[x]|
  }

  /** A row-major pass that turns `f` into `g`, stopped before entry (i, j):
      the rows below j, and row j left of column i, already hold `g`; every
      other entry still holds `f`. */
  ghost function Overlay(f: Field, g: Field, i: int, j: int): (r: Field)
    requires SameShape(f, g)
    ensures SameShape(f, r)
    ensures forall x, y :: 0 <= x < |f| && 0 <= y < |f[x]| ==>
              r[x][y] == if y < j || (y == j && x < i) then g[x][y] else f[x][y]
  {
    seq(|f|, x requires 0 <= x < |f| =>
      seq(|f[x]|, y requires 0 <= y < |f[x]| =>
        if y < j || (y == j && x < i) then g[x][y] else f[x][y]))
  }

  /** Two fields of the same shape that agree everywhere are equal. */
  lemma SameEntries(f: Field, g: Field)
    requires SameShape(f, g)
    requires forall x, y :: 0 <= x < |f| && 0 <= y < |f[x]| ==> f[x][y] == g[x][y]
    ensures f == g
  {
    forall x | 0 <= x < |f|
      ensures f[x] == g[x]
    {
    }
  }

  /** Before the first entry nothing has changed. */
  lemma OverlayStart(f: Field, g: Field)
    requires SameShape(f, g)
    ensures Overlay(f, g, 0, 0) == f
  {
    SameEntries(Overlay(f, g, 0, 0), f);
  }

  /** Writing g's value at (i, j) advances the pass by one entry. */
  lemma OverlayWrite(f: Field, g: Field, i: nat, j: nat)
    requires SameShape(f, g) && i < |f| && j < |f[i]|
    ensures Set(Overlay(f, g, i, j), i, j, g[i][j]) == Overlay(f, g, i + 1, j)
  {
    SameEntries(Set(Overlay(f, g, i, j), i, j, g[i][j]), Overlay(f, g, i + 1, j));
  }

  /** Where there is no entry (i, j), or `g` keeps the value of `f` there,
      the pass advances without a write. */
  lemma OverlaySkip(f: Field, g: Field, i: int, j: int)
    requires SameShape(f, g)
    requires 0 <= i < |f| && 0 <= j < |f[i]| ==> g[i][j] == f[i][j]
    ensures Overlay(f, g, i, j) == Overlay(f, g, i + 1, j)
  {
    SameEntries(Overlay(f, g, i, j), Overlay(f, g, i + 1, j));
  }

  /** Past the last column, the pass moves on to the next row. */
  lemma OverlayNextRow(f: Field, g: Field, i: nat, j: int)
    requires SameShape(f, g) && i >= |f|
    ensures Overlay(f, g, i, j) == Overlay(f, g, 0, j + 1)
  {
    SameEntries(Overlay(f, g, i, j), Overlay(f, g, 0, j + 1));
  }

  /** A row that `g` keeps from `f` can be skipped whole. */
  lemma OverlaySkipRow(f: Field, g: Field, j: nat)
    requires SameShape(f, g)
    requires forall x :: 0 <= x < |f| && j < |f[x]| ==> g[x][j] == f[x][j]
    ensures Overlay(f, g, 0, j) == Overlay(f, g, 0, j + 1)
  {
    SameEntries(Overlay(f, g, 0, j), Overlay(f, g, 0, j + 1));
  }

  /** Past the last row, the pass has produced `g`. */
  lemma OverlayDone(f: Field, g: Field, j: nat)
    requires SameShape(f, g) && forall x :: 0 <= x < |f| ==> |f[x]| <= j
    ensures Overlay(f, g, 0, j) == g
  {
    SameEntries(Overlay(f, g, 0, j), g);
  }

  /** The disc test behind `fill_circle`.  The body of `fill_circle` is not
      part of this model: this stands in for it (distance of the cell from the
      centre at most the radius), and no property proved here depends on it. */
  predicate InDisc(cx: int, cy: int, radius: real, x: int, y: int) {
    var dx, dy := (x - cx) as real, (y - cy) as real;
    dx * dx + dy * dy <= radius * radius
  }

  /** `f` with every entry inside the disc set to `c`. */
  function Stamp(f: Field, cx: int, cy: int, radius: real, c: real): (g: Field)
    ensures |g| == |f| && forall x :: 0 <= x < |f| ==> |g[x]| == |f[x]|
    ensures forall x, y :: 0 <= x < |f| && 0 <= y < |f[x]| ==>
              g[x][y] == if InDisc(cx, cy, radius, x, y) then c else f[x][y]
  {
    seq(|f|, x requires 0 <= x < |f| =>
      seq(|f[x]|, y requires 0 <= y < |f[x]| =>
        if InDisc(cx, cy, radius, x, y) then c else f[x][y]))
  }

  /** Stamping the same disc twice is stamping it once. */
  lemma StampIdempotent(f: Field, cx: int, cy: int, radius: real, c: real)
    ensures Stamp(Stamp(f, cx, cy, radius, c), cx, cy, radius, c) == Stamp(f, cx, cy, radius, c)
  {
    var once := Stamp(f, cx, cy, radius, c);
    var twice := Stamp(once, cx, cy, radius, c);
    forall x | 0 <= x < |f|
      ensures twice[x] == once[x]
    {
    }
  }

  /** `Array2D::new`: a fresh grid of zeros. */
  method New(w: nat, h: nat) returns (a: array2<real>)
    ensures fresh(a) && a.Length0 == w && a.Length1 == h
    ensures Mirrors(a, Filled(w, h, 0.0))
  {
    a := new real[w, h]((x, y) => 0.0);
  }

  /** `Array2D::fill`: a fresh grid holding `c` everywhere. */
  method NewFilled(c: real, w: nat, h: nat) returns (a: array2<real>)
    ensures fresh(a) && a.Length0 == w && a.Length1 == h
    ensures Mirrors(a, Filled(w, h, c))
  {
    a := new real[w, h]((x, y) => c);
  }

  /** `a[(x, y)] = c` through `IndexMut`: one entry replaced. */
  method Put(a: array2<real>, x: nat, y: nat, c: real, ghost f: Field)
    requires x < a.Length0 && y < a.Length1 && Mirrors(a, f)
    modifies a
    ensures Mirrors(a, Set(f, x, y, c))
  {
    a[x, y] := c;
  }

  /** `a[(x1, y1)] += plus; a[(x2, y2)] -= minus` on two different entries. */
  method AddAndSubtract(a: array2<real>, x1: nat, y1: nat, plus: real, x2: nat, y2: nat, minus: real, ghost f: Field)
    requires x1 < a.Length0 && y1 < a.Length1 && x2 < a.Length0 && y2 < a.Length1
    requires (x1, y1) != (x2, y2) && Mirrors(a, f)
    modifies a
    ensures Mirrors(a, Set(Set(f, x1, y1, f[x1][y1] + plus), x2, y2, f[x2][y2] - minus))
  {
    ghost var f1 := Set(f, x1, y1, f[x1][y1] + plus);
    Put(a, x1, y1, a[x1, y1] + plus, f);
    assert a[x2, y2] == f1[x2][y2];
    Put(a, x2, y2, a[x2, y2] - minus, f1);
  }

  /** `Array2D::clone`: a fresh grid with the same contents. */
  method Clone(a: array2<real>) returns (b: array2<real>)
    ensures fresh(b) && b.Length0 == a.Length0 && b.Length1 == a.Length1
    ensures Mirrors(b, Snapshot(a))
  {
    b := new real[a.Length0, a.Length1];
    var x := 0;
    while x < a.Length0
      invariant 0 <= x <= a.Length0
      invariant forall i, j :: 0 <= i < x && 0 <= j < a.Length1 ==> b[i, j] == a[i, j]
    {
      var y := 0;
      while y < a.Length1
        invariant 0 <= y <= a.Length1
        invariant forall i, j :: 0 <= i < x && 0 <= j < a.Length1 ==> b[i, j] == a[i, j]
        invariant forall j :: 0 <= j < y ==> b[x, j] == a[x, j]
      {
        b[x, y] := a[x, y];
        y := y + 1;
      }
      x := x + 1;
    }
  }

  /** `Array2D::zero`: overwrite every entry of `a` with 0. */
  method Zero(a: array2<real>)
    modifies a
    ensures Mirrors(a, Filled(a.Length0, a.Length1, 0.0))
  {
    var x := 0;
    while x < a.Length0
      invariant 0 <= x <= a.Length0
      invariant forall i, j :: 0 <= i < x && 0 <= j < a.Length1 ==> a[i, j] == 0.0
    {
      var y := 0;
      while y < a.Length1
        invariant 0 <= y <= a.Length1
        invariant forall i, j :: 0 <= i < x && 0 <= j < a.Length1 ==> a[i, j] == 0.0
        invariant forall j :: 0 <= j < y ==> a[x, j] == 0.0
      {
        a[x, y] := 0.0;
        y := y + 1;
      }
      x := x + 1;
    }
  }

  /** `Array2D::fill_circle`: set every entry inside the disc to `c`. */
  method FillCircle(a: array2<real>, cx: int, cy: int, radius: real, c: real)
    modifies a
    ensures Mirrors(a, Stamp(old(Snapshot(a)), cx, cy, radius, c))
  {
    ghost var before := Snapshot(a);
    var x := 0;
    while x < a.Length0
      invariant 0 <= x <= a.Length0
      invariant forall i, j :: 0 <= i < a.Length0 && 0 <= j < a.Length1 ==>
                  a[i, j] == if i < x && InDisc(cx, cy, radius, i, j) then c else before[i][j]
    {
      var y := 0;
      while y < a.Length1
        invariant 0 <= y <= a.Length1
        invariant forall i, j :: 0 <= i < a.Length0 && 0 <= j < a.Length1 ==>
                    a[i, j] == if (i < x || (i == x && j < y)) && InDisc(cx, cy, radius, i, j) then c else before[i][j]
      {
        if InDisc(cx, cy, radius, x, y) {
          a[x, y] := c;
        }
        y := y + 1;
      }
      x := x + 1;
    }
  }
}
