/** The drag path of the mouse encoder (src/input/mouse.py): Bresenham's line in integers, the SGR
    button value, and the event list of a drag. */
module Mouse {
  import opened Common

  datatype Coord = Coord(col: int, row: int)

  // ----- the ideal line -----

  function Dx(s: Coord, e: Coord): nat { Abs(e.col - s.col) }
  function Dy(s: Coord, e: Coord): nat { Abs(e.row - s.row) }

  /** Length of the line in steps. */
  function Steps(s: Coord, e: Coord): nat { Max(Dx(s, e), Dy(s, e)) }

  /** The integer nearest to minor * k / major, halves rounded up. */
  function Nearest(minor: nat, major: nat, k: nat): nat {
    if major == 0 then 0 else (2 * (minor * k) + major) / (2 * major)
  }

  function Toward(a: int, b: int, steps: nat): int { if a < b then a + steps else a - steps }

  /** The grid point nearest to the straight line after k steps along its longer axis. */
  function IdealPoint(s: Coord, e: Coord, k: nat): Coord {
    if Dx(s, e) >= Dy(s, e)
    then Coord(Toward(s.col, e.col, k), Toward(s.row, e.row, Nearest(Dy(s, e), Dx(s, e), k)))
    else Coord(Toward(s.col, e.col, Nearest(Dx(s, e), Dy(s, e), k)), Toward(s.row, e.row, k))
  }

  /** An integer within half a unit, halves rounded up, is the nearest one, and conversely. */
  lemma NearestIs(minor: nat, major: nat, k: nat, v: nat)
    requires major > 0
    ensures v == Nearest(minor, major, k) <==> -(major as int) < 2 * (major * v) - 2 * (minor * k) <= major
  {
    var n, d := 2 * (minor * k) + major, 2 * major;
    assert d * v == 2 * (major * v);
    Quotient(n, d, v);
  }

  lemma MulMonotone(d: nat, x: nat, y: nat)
    ensures x <= y ==> d * x <= d * y
  {
    if x <= y {
      assert d * y == d * x + d * (y - x);
    }
  }

  lemma Quotient(n: nat, d: nat, q: nat)
    requires d > 0
    ensures n / d == q <==> d * q <= n < d * q + d
  {
    var m: nat := n / d;
    assert d * m <= n < d * m + d;
    MulMonotone(d, m + 1, q);
    MulMonotone(d, q + 1, m);
    assert d * (m + 1) == d * m + d && d * (q + 1) == d * q + d;
  }

  lemma NearestEnds(minor: nat, major: nat)
    requires minor <= major
    ensures Nearest(minor, major, 0) == 0 && Nearest(minor, major, major) == minor
  {
    if major > 0 {
      NearestIs(minor, major, 0, 0);
      assert major * minor == minor * major;
      NearestIs(minor, major, major, minor);
    }
  }

  lemma NearestRange(minor: nat, major: nat, k: nat)
    requires minor <= major && k <= major
    ensures 0 <= Nearest(minor, major, k) <= minor
  {
    if major > 0 {
      var v := Nearest(minor, major, k);
      NearestIs(minor, major, k, v);
      MulMonotone(major, minor + 1, v);
      MulMonotone(minor, k, major);
      assert major * (minor + 1) == minor * major + major;
    }
  }

  /** Two values rounded from points at most one unit apart differ by at most one. */
  lemma RoundedSlope(major: nat, minor: nat, p: int, v: nat, w: nat)
    requires minor <= major
    requires -(major as int) < 2 * (major * v) - 2 * p <= major
    requires -(major as int) < 2 * (major * w) - 2 * (p + minor) <= major
    ensures v <= w <= v + 1
  {
    MulMonotone(major, w + 1, v);
    MulMonotone(major, v + 2, w);
    assert major * (w + 1) == major * w + major && major * (v + 2) == major * v + 2 * major;
  }

  lemma NearestSlope(minor: nat, major: nat, k: nat)
    requires minor <= major && k < major
    ensures Nearest(minor, major, k) <= Nearest(minor, major, k + 1) <= Nearest(minor, major, k) + 1
  {
    var v, w := Nearest(minor, major, k), Nearest(minor, major, k + 1);
    NearestIs(minor, major, k, v);
    NearestIs(minor, major, k + 1, w);
    assert minor * (k + 1) == minor * k + minor;
    RoundedSlope(major, minor, minor * k, v, w);
  }

  /** The rounded line starts at 0, ends at minor, never leaves 0..minor, and rises by 0 or 1 per
      step. */
  lemma NearestShape(minor: nat, major: nat, k: nat)
    requires minor <= major && k <= major
    ensures Nearest(minor, major, 0) == 0 && Nearest(minor, major, major) == minor
    ensures 0 <= Nearest(minor, major, k) <= minor
    ensures k < major ==> Nearest(minor, major, k) <= Nearest(minor, major, k + 1) <= Nearest(minor, major, k) + 1
  {
    NearestEnds(minor, major);
    NearestRange(minor, major, k);
    if k < major { NearestSlope(minor, major, k); }
  }

  // ----- the loop -----

  /** One pass of the loop after a point is recorded; u and v count the columns and rows walked. */
  method Pass(s: Coord, e: Coord, x: int, y: int, err: int, ghost k: nat, ghost u: nat, ghost v: nat)
    returns (x': int, y': int, err': int, ghost u': nat, ghost v': nat)
    requires OnLine(Dx(s, e), Dy(s, e), k, u, v, err) && k < Steps(s, e)
    requires x == Toward(s.col, e.col, u) && y == Toward(s.row, e.row, v)
    ensures OnLine(Dx(s, e), Dy(s, e), k + 1, u', v', err')
    ensures x' == Toward(s.col, e.col, u') && y' == Toward(s.row, e.row, v')
  {
    var dx: int, dy: int := Dx(s, e), -(Dy(s, e) as int);
    var sx := if s.col < e.col then 1 else -1;
    var sy := if s.row < e.row then 1 else -1;
    Advance(Dx(s, e), Dy(s, e), k, u, v, err);
    x', y', err', u', v' := x, y, err, u, v;
    var e2 := 2 * err;
    if e2 >= dy {
      err' := err' + dy;
      x' := x' + sx;
      u' := u' + 1;
    }
    if e2 <= dx {
      err' := err' + dx;
      y' := y' + sy;
      v' := v' + 1;
    }
  }

  /** _bresenham_line: the points are the ideal ones, one per step of the longer axis. */
  method BresenhamLine(start: Coord, end: Coord) returns (points: seq<Coord>)
    ensures |points| == Steps(start, end) + 1
    ensures forall k :: 0 <= k < |points| ==> points[k] == IdealPoint(start, end, k)
  {
    var x, y, err: int := start.col, start.row, Dx(start, end) - Dy(start, end);
    points := [];
    ghost var u: nat, v: nat := 0, 0;
    while true
      invariant |points| <= Steps(start, end)
      invariant forall k :: 0 <= k < |points| ==> points[k] == IdealPoint(start, end, k)
      invariant OnLine(Dx(start, end), Dy(start, end), |points|, u, v, err)
      invariant x == Toward(start.col, end.col, u) && y == Toward(start.row, end.row, v)
      decreases Steps(start, end) - |points|
    {
      Located(Dx(start, end), Dy(start, end), |points|, u, v, err);
      points := points + [Coord(x, y)];
      if x == end.col && y == end.row {
        break;
      }
      x, y, err, u, v := Pass(start, end, x, y, err, |points| - 1, u, v);
    }
  }

  /** After k passes, u columns and v rows have been walked and err holds the code's error term. */
  ghost predicate OnLine(a: nat, b: nat, k: nat, u: nat, v: nat, err: int) {
    && err == a * v - b * u + a - b
    && (if a >= b then u == k else v == k)
    && (if a == 0 && b == 0 then u == v == 0
        else if a >= b then -(a as int) < 2 * (a * v - b * u) <= a
        else -(b as int) <= 2 * (a * v - b * u) < b)
  }

  lemma RoundedLocated(major: nat, minor: nat, k: nat, m: nat)
    requires 0 < major && minor <= major && k <= major
    requires -(major as int) < 2 * (major * m) - 2 * (minor * k) <= major
    ensures m == Nearest(minor, major, k) && m <= minor && (k == major ==> m == minor)
  {
    NearestIs(minor, major, k, m);
    NearestRange(minor, major, k);
    NearestEnds(minor, major);
  }

  /** The walked point is the nearest one, and it is the end point exactly after the last step. */
  lemma Located(a: nat, b: nat, k: nat, u: nat, v: nat, err: int)
    requires OnLine(a, b, k, u, v, err) && k <= Max(a, b)
    ensures if a >= b then v == Nearest(b, a, k) else u == Nearest(a, b, k)
    ensures u <= a && v <= b
    ensures u == a && v == b <==> k == Max(a, b)
  {
    if a >= b {
      if a > 0 { RoundedLocated(a, b, k, v); }
    } else {
      RoundedLocated(b, a, k, u);
    }
  }

  lemma Advance(a: nat, b: nat, k: nat, u: nat, v: nat, err: int)
    requires OnLine(a, b, k, u, v, err) && k < Max(a, b)
    ensures var u' := if 2 * err >= -(b as int) then u + 1 else u;
            var v' := if 2 * err <= a then v + 1 else v;
            var err' := err - (if 2 * err >= -(b as int) then b else 0) + (if 2 * err <= a then a else 0);
            OnLine(a, b, k + 1, u', v', err')
  {
    assert a * (v + 1) == a * v + a;
    assert b * (u + 1) == b * u + b;
  }

  // ----- what the line promises -----

  lemma Deviation(minor: nat, major: nat, k: nat)
    requires minor <= major && k <= major
    ensures Abs(2 * (major * Nearest(minor, major, k) - minor * k)) <= major
  {
    if major > 0 { NearestIs(minor, major, k, Nearest(minor, major, k)); }
  }

  lemma LineDeviation(s: Coord, e: Coord, k: nat)
    requires k <= Steps(s, e)
    ensures var p := IdealPoint(s, e, k);
            Abs(2 * (Dx(s, e) * Abs(p.row - s.row) - Dy(s, e) * Abs(p.col - s.col))) <= Steps(s, e)
  {
    var a, b, p := Dx(s, e), Dy(s, e), IdealPoint(s, e, k);
    if a >= b {
      assert Abs(p.row - s.row) == Nearest(b, a, k) && Abs(p.col - s.col) == k;
      Deviation(b, a, k);
    } else {
      assert Abs(p.col - s.col) == Nearest(a, b, k) && Abs(p.row - s.row) == k;
      Deviation(a, b, k);
    }
  }

  /** Between the end points, consecutive points are distinct king-move neighbours, the doubled
      deviation from the straight line is at most the number of steps, and no point leaves the
      rectangle spanned by the end points. */
  lemma LineShape(s: Coord, e: Coord, k: nat)
    requires k <= Steps(s, e)
    ensures IdealPoint(s, e, 0) == s && IdealPoint(s, e, Steps(s, e)) == e
    ensures var p := IdealPoint(s, e, k);
            && Min(s.col, e.col) <= p.col <= Max(s.col, e.col)
            && Min(s.row, e.row) <= p.row <= Max(s.row, e.row)
            && Abs(2 * (Dx(s, e) * Abs(p.row - s.row) - Dy(s, e) * Abs(p.col - s.col))) <= Steps(s, e)
    ensures k < Steps(s, e) ==>
              var p, q := IdealPoint(s, e, k), IdealPoint(s, e, k + 1);
              p != q && Abs(p.col - q.col) <= 1 && Abs(p.row - q.row) <= 1
  {
    var a, b := Dx(s, e), Dy(s, e);
    if a >= b { NearestShape(b, a, k); } else { NearestShape(a, b, k); }
    LineDeviation(s, e, k);
  }

  // ----- the drag -----

  datatype MouseError = ColOutOfRange(col: int) | RowOutOfRange(row: int) | UnknownButton(button: string)

  /** One SGR mouse report; released reports end in m, the others in M. */
  datatype Report = Report(value: bv8, at: Coord, released: bool)

  function ButtonCode(button: string): Option<bv8> {
    if button == "left" then Some(0) else if button == "middle" then Some(1)
    else if button == "right" then Some(2) else None
  }

  const BUTTON_BITS: bv8 := 0x43
  const SHIFT: bv8 := 4
  const ALT: bv8 := 8
  const CTRL: bv8 := 16
  const MOTION: bv8 := 32

  function ModifierBit(m: string): bv8 {
    if m == "shift" then SHIFT else if m == "alt" then ALT else if m == "ctrl" then CTRL else 0
  }

  ghost predicate ModifiersHeld(value: bv8, modifiers: seq<string>) {
    && (value & 4 != 0 <==> "shift" in modifiers)
    && (value & 8 != 0 <==> "alt" in modifiers)
    && (value & 16 != 0 <==> "ctrl" in modifiers)
  }

  /** The two low bits and the 64 say which button it is. */
  ghost predicate Pressed(value: bv8, button: string) {
    || (button == "left" && value & 0x43 == 0)
    || (button == "middle" && value & 0x43 == 1)
    || (button == "right" && value & 0x43 == 2)
  }

  /** _encode_button: every bit of the value is accounted for. */
  method EncodeButton(base: bv8, modifiers: seq<string>, motion: bool) returns (value: bv8)
    requires base & BUTTON_BITS == base
    ensures value & BUTTON_BITS == base && value & 0x80 == 0
    ensures ModifiersHeld(value, modifiers)
    ensures value & 32 != 0 <==> motion
  {
    value := base;
    var i := 0;
    while i < |modifiers|
      invariant 0 <= i <= |modifiers|
      invariant value & BUTTON_BITS == base && value & 0x80 == 0 && value & MOTION == 0
      invariant ModifiersHeld(value, modifiers[..i])
    {
      value := value | ModifierBit(modifiers[i]);
      assert modifiers[..i + 1] == modifiers[..i] + [modifiers[i]];
      i := i + 1;
    }
    assert modifiers[..i] == modifiers;
    if motion { value := value | MOTION; }
  }

  predicate OnScreen(c: Coord, cols: int, rows: int) { 1 <= c.col <= cols && 1 <= c.row <= rows }

  function Validate(c: Coord, cols: int, rows: int): Option<MouseError> {
    if !(1 <= c.col <= cols) then Some(ColOutOfRange(c.col))
    else if !(1 <= c.row <= rows) then Some(RowOutOfRange(c.row))
    else None
  }

  /** A press at the start, one motion report per further point of the line in order, a release at
      the end. */
  ghost predicate DragReports(reports: seq<Report>, from: Coord, to: Coord) {
    && |reports| == Steps(from, to) + 2
    && (forall k :: 0 <= k <= Steps(from, to) ==> reports[k].at == IdealPoint(from, to, k) && !reports[k].released)
    && reports[|reports| - 1].at == to && reports[|reports| - 1].released
    && reports[0].value & 32 == 0
    && (forall k :: 0 <= k < |reports| ==>
          reports[k].value == if 0 < k < |reports| - 1 then reports[0].value | 32 else reports[0].value)
  }

  /** drag: fails exactly on an end point off the screen or an unknown button, and otherwise
      reports the whole line without leaving the screen. */
  method Drag(cols: int, rows: int, from: Coord, to: Coord, button: string, modifiers: seq<string>)
    returns (r: Result<seq<Report>, MouseError>)
    ensures r.Ok? <==>
            OnScreen(from, cols, rows) && OnScreen(to, cols, rows) && button in {"left", "middle", "right"}
    ensures r.Err? ==>
              r.error == (if !(1 <= from.col <= cols) then ColOutOfRange(from.col)
                          else if !(1 <= from.row <= rows) then RowOutOfRange(from.row)
                          else if !(1 <= to.col <= cols) then ColOutOfRange(to.col)
                          else if !(1 <= to.row <= rows) then RowOutOfRange(to.row)
                          else UnknownButton(button))
    ensures r.Ok? ==> DragReports(r.value, from, to)
    ensures r.Ok? ==> Pressed(r.value[0].value, button) && ModifiersHeld(r.value[0].value, modifiers)
    ensures r.Ok? ==> forall k :: 0 <= k < |r.value| ==> OnScreen(r.value[k].at, cols, rows)
  {
    var bad := Validate(from, cols, rows);
    if bad.Some? { return Err(bad.value); }
    bad := Validate(to, cols, rows);
    if bad.Some? { return Err(bad.value); }
    var code := ButtonCode(button);
    if code.None? { return Err(UnknownButton(button)); }
    var line := BresenhamLine(from, to);
    var held := EncodeButton(code.value, modifiers, false);
    var moving := EncodeButton(code.value, modifiers, true);
    SameButMotion(held, moving);
    CodePressed(button, held);
    var reports := [Report(held, line[0], false)];
    var i := 1;
    while i < |line|
      invariant 1 <= i <= |line| && |reports| == i
      invariant reports[0] == Report(held, line[0], false)
      invariant forall k :: 1 <= k < i ==> reports[k] == Report(moving, line[k], false)
    {
      reports := reports + [Report(moving, line[i], false)];
      i := i + 1;
    }
    LineShape(from, to, Steps(from, to));
    reports := reports + [Report(held, line[|line| - 1], true)];
    forall k | 0 <= k < |line| ensures OnScreen(line[k], cols, rows) {
      LineShape(from, to, k);
    }
    r := Ok(reports);
  }

  lemma CodePressed(button: string, value: bv8)
    requires ButtonCode(button) == Some(value & BUTTON_BITS)
    ensures Pressed(value, button)
  {}

  lemma SameButMotion(held: bv8, moving: bv8)
    requires held & BUTTON_BITS == moving & BUTTON_BITS && held & 0x80 == moving & 0x80
    requires held & SHIFT != 0 <==> moving & SHIFT != 0
    requires held & ALT != 0 <==> moving & ALT != 0
    requires held & CTRL != 0 <==> moving & CTRL != 0
    requires held & MOTION == 0 && moving & MOTION != 0
    ensures moving == held | MOTION
  {}
}
