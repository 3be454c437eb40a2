/** The seven preset views of the mandelbrot programs: a scale and a shift
    applied to the complex window before rendering. Rust's
    `scale_and_shift` and the C++ `main` carry the same three tables; the
    f32 / float arithmetic is modelled on the reals. */
module Views {

  datatype Option<T> = None | Some(value: T)

  /** The number of views, C++'s `VIEWCNT`. */
  const VIEWCNT: nat := 7

  const Scales: seq<real> := [0.01, 1.0, 0.015, 0.02, 0.02, 0.02, 0.002]
  const ShiftXs: seq<real> := [0.0, 0.0, -0.98, 0.35, 0.0, -1.5, -1.4]
  const ShiftYs: seq<real> := [0.0, 0.0, 0.30, 0.05, 0.73, 0.0, 0.0]

  /** The three tables have one entry per view, and every scale is
      positive. */
  lemma ViewTables()
    ensures |Scales| == |ShiftXs| == |ShiftYs| == VIEWCNT
    ensures forall v :: 0 <= v < VIEWCNT ==> Scales[v] > 0.0
  {
  }

  /** The window [x0, x1] x [y0, y1] of the complex plane. */
  datatype Window = Window(x0: real, x1: real, y0: real, y1: real)

  /** One row of the tables. */
  datatype View = View(scale: real, shiftX: real, shiftY: real)

  /** C++ `scaleAndShift`: every bound is multiplied by the scale, then the
      x bounds move by shiftX and the y bounds by shiftY. The window's sides
      are scaled, and a positive scale keeps each pair of bounds in order. */
  function ScaleAndShift(w: Window, v: View): (r: Window)
    ensures r.x1 - r.x0 == v.scale * (w.x1 - w.x0)
    ensures r.y1 - r.y0 == v.scale * (w.y1 - w.y0)
    ensures v.scale > 0.0 ==> (w.x0 < w.x1 <==> r.x0 < r.x1) && (w.y0 < w.y1 <==> r.y0 < r.y1)
  {
    var r := Window(w.x0 * v.scale + v.shiftX, w.x1 * v.scale + v.shiftX,
                    w.y0 * v.scale + v.shiftY, w.y1 * v.scale + v.shiftY);
    PositiveScalePreservesOrder(w.x0, w.x1, v.scale);
    PositiveScalePreservesOrder(w.y0, w.y1, v.scale);
    r
  }

  lemma PositiveScalePreservesOrder(a: real, b: real, s: real)
    ensures s > 0.0 ==> (a < b <==> a * s < b * s)
  {
    if s <= 0.0 {
    } else if a < b {
      assert b * s - a * s == (b - a) * s;
    } else {
      assert a * s - b * s == (a - b) * s;
    }
  }

  /** Table row `view`; the `view < 7` that `parse_arguments` asserts, and
      the C++ range check, keep the lookup inside the tables. Every preset
      scale is positive. */
  function TableView(view: nat): (v: View)
    requires view < VIEWCNT
    ensures v.scale > 0.0
  {
    View(Scales[view], ShiftXs[view], ShiftYs[view])
  }

  /** Rust `scale_and_shift(x0, x1, y0, y1, view)`: the window is scaled and
      shifted by table row `view`. On the real-number window of this model
      the scale is positive, so a window with x0 < x1 and y0 < y1 keeps that
      orientation and a positive width and height.
      This is also the window the C++ `-v` option selects (`SelectView`) and
      `scaleAndShift` computes for the same view. */
  function RustScaleAndShift(w: Window, view: nat): (r: Window)
    requires view < VIEWCNT
    ensures w.x0 < w.x1 <==> r.x0 < r.x1
    ensures w.y0 < w.y1 <==> r.y0 < r.y1
    ensures r.x1 - r.x0 == Scales[view] * (w.x1 - w.x0)
    ensures r.y1 - r.y0 == Scales[view] * (w.y1 - w.y0)
  {
    ScaleAndShift(w, TableView(view))
  }

  /** The C++ `-v` option: a view index outside [0, VIEWCNT) is refused
      (`main` prints an error and returns 1); an accepted index selects
      table row viewIndex, whose scale is positive. */
  function SelectView(viewIndex: int): (r: Option<View>)
    ensures r.Some? <==> 0 <= viewIndex < VIEWCNT
    ensures r.Some? ==> r.value.scale > 0.0
  {
    if viewIndex < 0 || viewIndex >= VIEWCNT then None
    else Some(TableView(viewIndex))
  }
}
