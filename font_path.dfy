/** The glyph path interpreter of src/font.cpp (`SVGParsePathFloats`,
    `Quadratic2Bezier`, `ParseGlyphPath` and the straight-line branch of
    `cairo_svg_arc`): it runs the path data of a glyph, in the grammar of
    section 8.3 of SVG 1.1, and produces the drawing operations it hands to
    the vector backend.  The interpreter keeps a cursor (x, y), the last
    control point (x2, y2) and the previous command letter. */
module FontPath {
  import opened Wrappers
  import opened Chars
  import UnicodeRef

  /** One drawing call made on the vector backend. Arc rotation is in
      degrees, as written in the path data. */
  datatype PathOp =
    | MoveTo(x: real, y: real)
    | LineTo(x: real, y: real)
    | CurveTo(x1: real, y1: real, x2: real, y2: real, x: real, y: real)
    | ArcTo(x0: real, y0: real, rx: real, ry: real, rotation: real, largeArc: bool, sweep: bool, x: real, y: real)
    | ClosePath

  /** The four ways an arc command fails to parse; no other command fails. */
  datatype PathError =
    | ArcMissingFirstFloats
    | ArcMissingLargeArcFlag
    | ArcMissingSweepFlag
    | ArcMissingLastFloats

  /** The interpreter's registers: the cursor and the last control point. */
  datatype Pen = Pen(x: real, y: real, x2: real, y2: real)

  /** The font's em box, already scaled to pixels. */
  datatype BBox = BBox(left: real, bottom: real, right: real, top: real)

  /** What rasterizing a glyph produces: the drawing operations, in font
      units, drawn under a scale of `scale` after moving the origin to
      (-left, -bottom), on a texture of texW x texH pixels. */
  datatype Outline = Outline(ops: seq<PathOp>, texW: int, texH: int, scale: real, shiftX: real, shiftY: real)

  const Start := Pen(0.0, 0.0, 0.0, 0.0)

  predicate IsSeparator(c: char)
  {
    IsSpace(c) || c == ','
  }

  /** Path data the interpreter can run on: a C string that does not end in
      white space (after a trailing blank the symbol reader steps past the
      terminator). */
  predicate PathText(d: string)
  {
    NulFree(d) && (|d| == 0 || !IsSpace(d[|d| - 1]))
  }

  function Ceil(r: real): int
  {
    -((-r).Floor)
  }

  /** One number of `SVGParsePathFloats`, after any mix of white space and
      commas; None when the text ends first or the number does not scan. */
  function NextFloat(d: string, i: nat): (r: Option<(real, nat)>)
    requires i <= |d|
    ensures r.Some? ==> i < r.value.1 <= |d|
    decreases |d| - i
  {
    if At(d, i) == '\0' then None
    else if IsSeparator(d[i]) then NextFloat(d, i + 1)
    else ScanFloat(d, i)
  }

  /** `SVGParsePathFloats`: n numbers in a row, or None. */
  function PathFloats(n: nat, d: string, i: nat): (r: Option<(seq<real>, nat)>)
    requires i <= |d|
    ensures r.Some? ==> |r.value.0| == n && i <= r.value.1 <= |d|
    ensures r.Some? && n > 0 ==> i < r.value.1
  {
    FloatsAfter([], n, d, i)
  }

  /** The numbers read so far, acc, followed by n more. */
  function FloatsAfter(acc: seq<real>, n: nat, d: string, i: nat): (r: Option<(seq<real>, nat)>)
    requires i <= |d|
    ensures r.Some? ==> |r.value.0| == |acc| + n && i <= r.value.1 <= |d|
    ensures r.Some? && n > 0 ==> i < r.value.1
    decreases n
  {
    if n == 0 then Some((acc, i))
    else
      match NextFloat(d, i)
      case None => None
      case Some((v, q)) => FloatsAfter(acc + [v], n - 1, d, q)
  }

  /** The loop `while (skip (*s)) s++;` over a C string. */
  method SkipLoop(s: string, i: nat, skip: char -> bool) returns (r: nat)
    requires i <= |s|
    requires !skip('\0')
    ensures r == SkipWhile(s, i, skip)
  {
    r := i;
    while skip(At(s, r))
      invariant i <= r <= |s|
      invariant SkipWhile(s, r, skip) == SkipWhile(s, i, skip)
      decreases |s| - r
    {
      r := r + 1;
    }
  }

  method ReadFloat(d: string, i: nat) returns (r: Option<(real, nat)>)
    requires i <= |d|
    ensures r == NextFloat(d, i)
  {
    var text := i;
    if At(d, text) == '\0' {
      return None;
    }
    while IsSeparator(At(d, text))
      invariant i <= text <= |d|
      invariant NextFloat(d, text) == NextFloat(d, i)
      invariant At(d, text) != '\0'
      decreases |d| - text
    {
      text := text + 1;
      if At(d, text) == '\0' {
        return None;
      }
    }
    r := ScanFloat(d, text);
  }

  method SVGParsePathFloats(n: nat, d: string, i: nat) returns (r: Option<(seq<real>, nat)>)
    requires i <= |d|
    ensures r == PathFloats(n, d, i)
  {
    var text: nat, outs: seq<real>, k: nat := i, [], 0;
    while k < n
      invariant k <= n && text <= |d|
      invariant FloatsAfter(outs, n - k, d, text) == PathFloats(n, d, i)
    {
      var f := ReadFloat(d, text);
      if f.None? {
        return None;
      }
      outs, text, k := outs + [f.value.0], f.value.1, k + 1;
    }
    r := Some((outs, text));
  }

  /** Reading m + n numbers reads the same numbers as reading m and then n
      more from where the first read stopped, and fails exactly when one of
      the two reads fails. */
  lemma PathFloatsSplit(m: nat, n: nat, d: string, i: nat)
    requires i <= |d|
    ensures PathFloats(m, d, i).None? ==> PathFloats(m + n, d, i).None?
    ensures PathFloats(m, d, i).Some? ==>
      var a := PathFloats(m, d, i).value;
      PathFloats(m + n, d, i) ==
        if PathFloats(n, d, a.1).None? then None
        else Some((a.0 + PathFloats(n, d, a.1).value.0, PathFloats(n, d, a.1).value.1))
  {
    FloatsAfterSplit([], m, n, d, i);
    FloatsAfterFails([], m, n, d, i);
    if PathFloats(m, d, i).Some? {
      var a := PathFloats(m, d, i).value;
      FloatsAfterShift(a.0, n, d, a.1);
    }
  }

  lemma {:induction false} FloatsAfterSplit(acc: seq<real>, m: nat, n: nat, d: string, i: nat)
    requires i <= |d|
    ensures FloatsAfter(acc, m, d, i).Some? ==>
      FloatsAfter(acc, m + n, d, i) == FloatsAfter(FloatsAfter(acc, m, d, i).value.0, n, d, FloatsAfter(acc, m, d, i).value.1)
    decreases m
  {
    if m > 0 {
      match NextFloat(d, i)
      case None =>
      case Some((v, q)) =>
        FloatsAfterSplit(acc + [v], m - 1, n, d, q);
    }
  }

  /** When the first m numbers fail to read, so do m + n. */
  lemma {:induction false} FloatsAfterFails(acc: seq<real>, m: nat, n: nat, d: string, i: nat)
    requires i <= |d|
    ensures FloatsAfter(acc, m, d, i).None? ==> FloatsAfter(acc, m + n, d, i).None?
    decreases m
  {
    if m > 0 {
      match NextFloat(d, i)
      case None =>
      case Some((v, q)) =>
        FloatsAfterFails(acc + [v], m - 1, n, d, q);
    }
  }

  /** The numbers read after acc are the ones read after nothing. */
  lemma {:induction false} FloatsAfterShift(acc: seq<real>, n: nat, d: string, i: nat)
    requires i <= |d|
    ensures FloatsAfter([], n, d, i).None? ==> FloatsAfter(acc, n, d, i).None?
    ensures FloatsAfter([], n, d, i).Some? ==>
      FloatsAfter(acc, n, d, i) == Some((acc + FloatsAfter([], n, d, i).value.0, FloatsAfter([], n, d, i).value.1))
    decreases n
  {
    if n > 0 {
      match NextFloat(d, i)
      case None =>
      case Some((v, q)) =>
        assert FloatsAfter(acc, n, d, i) == FloatsAfter(acc + [v], n - 1, d, q);
        assert FloatsAfter([], n, d, i) == FloatsAfter([] + [v], n - 1, d, q);
        assert [] + [v] == [v];
        FloatsAfterShift(acc + [v], n - 1, d, q);
        FloatsAfterShift([v], n - 1, d, q);
        if FloatsAfter([], n - 1, d, q).Some? {
          var r := FloatsAfter([], n - 1, d, q).value.0;
          assert acc + [v] + r == acc + ([v] + r);
        }
    } else {
      assert acc + [] == acc;
    }
  }

  /** Separators followed by a decimal numeral written out read back as
      that number. */
  lemma ReadsWrittenInteger(seps: string, n: nat, rest: string)
    requires forall k :: 0 <= k < |seps| ==> IsSeparator(seps[k])
    requires rest == [] || (!IsDigit(rest[0]) && rest[0] != '.')
    ensures var d := seps + UnicodeRef.DecimalString(n) + rest;
      PathFloats(1, d, 0) == Some(([n as real], |seps| + |UnicodeRef.DecimalString(n)|))
  {
    var ds := UnicodeRef.DecimalString(n);
    var d := seps + ds + rest;
    SkipSeparators(d, 0, |seps|);
    var e := |seps| + |ds|;
    assert d[|seps|..e] == ds;
    DigitsRead(d, |seps|, |seps|, e);
    assert d[|seps|..|seps|] == [];
    UnicodeRef.DecimalStringValue(n);
    assert ScanFloat(d, |seps|) == Some((n as real, e));
    assert NextFloat(d, 0) == Some((n as real, e));
    assert PathFloats(1, d, 0) == FloatsAfter([] + [n as real], 0, d, e);
    assert [] + [n as real] == [n as real];
    assert FloatsAfter([n as real], 0, d, e) == Some(([n as real], e));
  }

  /** Leading separators are skipped one at a time. */
  lemma {:induction false} SkipSeparators(d: string, i: nat, p: nat)
    requires i <= p < |d| && forall k :: i <= k < p ==> IsSeparator(d[k])
    requires d[p] != '\0' && !IsSeparator(d[p])
    ensures NextFloat(d, i) == ScanFloat(d, p)
    decreases p - i
  {
    if i < p {
      assert IsSeparator(d[i]);
      SkipSeparators(d, i + 1, p);
    }
  }

  /** `Digits` started after the digits s[start..p], with their value read,
      stops at the end e of the run with the value of s[start..e]. */
  lemma {:induction false} DigitsRead(s: string, start: nat, p: nat, e: nat)
    requires start <= p <= e <= |s|
    requires forall k :: start <= k < e ==> IsDigit(s[k])
    requires e == |s| || !IsDigit(s[e])
    ensures Digits(s, p, DecimalValue(s[start..p])) == (DecimalValue(s[start..e]), e)
    decreases e - p
  {
    if p < e {
      assert s[start..p + 1][..p - start] == s[start..p];
      DigitsRead(s, start, p + 1, e);
    }
  }

  /** `Quadratic2Bezier`: the two control points of the cubic that traces
      the quadratic from p1 through control c to end. */
  function Quadratic2Bezier(x1: real, y1: real, cx: real, cy: real, x: real, y: real): (q: (real, real, real, real))
    ensures q.0 == x1 + 2.0 / 3.0 * (cx - x1) && q.1 == y1 + 2.0 / 3.0 * (cy - y1)
    ensures q.2 == x + 2.0 / 3.0 * (cx - x) && q.3 == y + 2.0 / 3.0 * (cy - y)
  {
    (cx * 2.0 / 3.0 + x1 / 3.0, cy * 2.0 / 3.0 + y1 / 3.0, cx * 2.0 / 3.0 + x / 3.0, cy * 2.0 / 3.0 + y / 3.0)
  }

  /** One coordinate of the cubic Bezier curve p0 p1 p2 p3 at parameter t. */
  function Cubic(p0: real, p1: real, p2: real, p3: real, t: real): real
  {
    var s := 1.0 - t;
    s * s * s * p0 + 3.0 * s * s * t * p1 + 3.0 * s * t * t * p2 + t * t * t * p3
  }

  /** One coordinate of the quadratic Bezier curve p0 c p2 at parameter t. */
  function Quadratic(p0: real, c: real, p2: real, t: real): real
  {
    var s := 1.0 - t;
    s * s * p0 + 2.0 * s * t * c + t * t * p2
  }

  /** The cubic that `Quadratic2Bezier` builds is the quadratic curve itself:
      the two agree at every parameter value. */
  lemma QuadraticElevationExact(x1: real, y1: real, cx: real, cy: real, x: real, y: real, t: real)
    ensures var q := Quadratic2Bezier(x1, y1, cx, cy, x, y);
      Cubic(x1, q.0, q.2, x, t) == Quadratic(x1, cx, x, t) &&
      Cubic(y1, q.1, q.3, y, t) == Quadratic(y1, cy, y, t)
  {
    var q := Quadratic2Bezier(x1, y1, cx, cy, x, y);
    ElevateCoordinate(x1, cx, x, q.0, q.2, t);
    ElevateCoordinate(y1, cy, y, q.1, q.3, t);
  }

  lemma ElevateCoordinate(p0: real, c: real, p2: real, q1: real, q2: real, t: real)
    requires q1 == p0 / 3.0 + 2.0 * c / 3.0 && q2 == p2 / 3.0 + 2.0 * c / 3.0
    ensures Cubic(p0, q1, q2, p2, t) == Quadratic(p0, c, p2, t)
  {
    var s := 1.0 - t;
    calc {
      Cubic(p0, q1, q2, p2, t);
      s * s * s * p0 + 3.0 * s * s * t * q1 + 3.0 * s * t * t * q2 + t * t * t * p2;
      s * s * s * p0 + s * s * t * p0 + 2.0 * s * s * t * c + 2.0 * s * t * t * c + s * t * t * p2 + t * t * t * p2;
      s * s * (s + t) * p0 + 2.0 * s * t * (s + t) * c + t * t * (s + t) * p2;
      { assert s + t == 1.0; }
      s * s * p0 + 2.0 * s * t * c + t * t * p2;
    }
  }

  /** The commands that repeat a fixed-size coordinate group. */
  predicate IsGroupCommand(cmd: char)
  {
    cmd in "mlhvcsqt"
  }

  /** How many numbers one group of a command takes. */
  function Arity(cmd: char): (n: nat)
    ensures n >= 1
  {
    if cmd == 'h' || cmd == 'v' then 1
    else if cmd == 'm' || cmd == 'l' || cmd == 't' then 2
    else if cmd == 'c' then 6
    else 4
  }

  /** The point (x, y) of a group, absolute or relative to the cursor. */
  function Point(upper: bool, pen: Pen, x: real, y: real): (real, real)
  {
    if upper then (x, y) else (pen.x + x, pen.y + y)
  }

  /** The cursor reflected across the last control point's mirror: the first
      control point of a smooth curve that continues a curve of its kind. */
  function Reflected(pen: Pen): (real, real)
  {
    (pen.x + (pen.x - pen.x2), pen.y + (pen.y - pen.y2))
  }

  /** One coordinate group of command cmd (lower case), given whether the
      letter was upper case and the previous command letter: the new
      registers and the operation drawn. */
  function Group(cmd: char, upper: bool, prev: char, pen: Pen, f: seq<real>): (r: (Pen, PathOp))
    requires IsGroupCommand(cmd) && |f| == Arity(cmd)
  {
    if cmd == 'm' then
      var p := Point(upper, pen, f[0], f[1]);
      (pen.(x := p.0, y := p.1), MoveTo(p.0, p.1))
    else if cmd == 'l' then
      var p := Point(upper, pen, f[0], f[1]);
      (pen.(x := p.0, y := p.1), LineTo(p.0, p.1))
    else if cmd == 'h' then
      var x := if upper then f[0] else pen.x + f[0];
      (pen.(x := x), LineTo(x, pen.y))
    else if cmd == 'v' then
      var y := if upper then f[0] else pen.y + f[0];
      (pen.(y := y), LineTo(pen.x, y))
    else if cmd == 'c' then
      var c1, c2, p := Point(upper, pen, f[0], f[1]), Point(upper, pen, f[2], f[3]), Point(upper, pen, f[4], f[5]);
      (Pen(p.0, p.1, c2.0, c2.1), CurveTo(c1.0, c1.1, c2.0, c2.1, p.0, p.1))
    else if cmd == 's' then
      var c1 := if prev == 's' || prev == 'c' then Reflected(pen) else (pen.x, pen.y);
      var c2, p := Point(upper, pen, f[0], f[1]), Point(upper, pen, f[2], f[3]);
      (Pen(p.0, p.1, c2.0, c2.1), CurveTo(c1.0, c1.1, c2.0, c2.1, p.0, p.1))
    else if cmd == 'q' then
      var c, p := Point(upper, pen, f[0], f[1]), Point(upper, pen, f[2], f[3]);
      var q := Quadratic2Bezier(pen.x, pen.y, c.0, c.1, p.0, p.1);
      (Pen(p.0, p.1, c.0, c.1), CurveTo(q.0, q.1, q.2, q.3, p.0, p.1))
    else
      var c := if prev == 't' || prev == 'q' then Reflected(pen) else (pen.x, pen.y);
      var p := Point(upper, pen, f[0], f[1]);
      var q := Quadratic2Bezier(pen.x, pen.y, c.0, c.1, p.0, p.1);
      (Pen(p.0, p.1, c.0, c.1), CurveTo(q.0, q.1, q.2, q.3, p.0, p.1))
  }

  /** The absolute coordinates that a relative group of cmd stands for:
      x coordinates are measured from the cursor's x, y coordinates from its y. */
  function Absolute(cmd: char, pen: Pen, f: seq<real>): (g: seq<real>)
    ensures |g| == |f|
  {
    seq(|f|, k requires 0 <= k < |f| =>
      if cmd == 'v' then f[k] + pen.y
      else if k % 2 == 0 then f[k] + pen.x
      else f[k] + pen.y)
  }

  /** A lower-case group draws exactly what the upper-case group with the
      cursor added to its coordinates draws, for every command: all points,
      control points included, are relative to the start of the segment. */
  lemma RelativeIsShiftedAbsolute(cmd: char, prev: char, pen: Pen, f: seq<real>)
    requires IsGroupCommand(cmd) && |f| == Arity(cmd)
    ensures Group(cmd, false, prev, pen, f) == Group(cmd, true, prev, pen, Absolute(cmd, pen, f))
  {
    var g := Absolute(cmd, pen, f);
    assert forall k :: 0 <= k < |f| && k % 2 == 0 && cmd != 'v' ==> g[k] == pen.x + f[k];
    assert forall k :: 0 <= k < |f| && k % 2 == 1 ==> g[k] == pen.y + f[k];
    if cmd == 'c' {
      assert g[0] == pen.x + f[0] && g[2] == pen.x + f[2] && g[4] == pen.x + f[4];
      assert g[1] == pen.y + f[1] && g[3] == pen.y + f[3] && g[5] == pen.y + f[5];
    } else if cmd == 's' || cmd == 'q' {
      assert g[0] == pen.x + f[0] && g[2] == pen.x + f[2];
      assert g[1] == pen.y + f[1] && g[3] == pen.y + f[3];
    } else if cmd == 'v' {
      assert g[0] == pen.y + f[0];
    } else {
      assert g[0] == pen.x + f[0];
    }
  }

  /** H moves the cursor horizontally only, V vertically only, and neither
      they nor M and L touch the last control point. */
  lemma StraightSegmentsKeepTheRest(upper: bool, prev: char, pen: Pen, a: real, b: real)
    ensures var p := Group('h', upper, prev, pen, [a]).0;
      p.y == pen.y && p.x2 == pen.x2 && p.y2 == pen.y2 && p.x == (if upper then a else pen.x + a)
    ensures var p := Group('v', upper, prev, pen, [b]).0;
      p.x == pen.x && p.x2 == pen.x2 && p.y2 == pen.y2 && p.y == (if upper then b else pen.y + b)
    ensures Group('m', upper, prev, pen, [a, b]).0 == Group('l', upper, prev, pen, [a, b]).0
    ensures var p := Group('l', upper, prev, pen, [a, b]).0; p.x2 == pen.x2 && p.y2 == pen.y2
  {
  }

  /** S after C or S is C with the first control point mirrored across the
      cursor; S after anything else is C with the first control point at the
      cursor.  Either way the second control point is remembered. */
  lemma SmoothCubicIsCubic(upper: bool, prev: char, pen: Pen, f: seq<real>)
    requires |f| == 4
    ensures var c1 := if prev == 'c' || prev == 's' then Reflected(pen) else (pen.x, pen.y);
      Group('s', upper, prev, pen, f) ==
      Group('c', upper, prev, pen, [if upper then c1.0 else c1.0 - pen.x, if upper then c1.1 else c1.1 - pen.y] + f)
  {
  }

  /** T after Q or T is Q with the control point mirrored across the cursor;
      T after anything else is Q with the control point at the cursor. */
  lemma SmoothQuadraticIsQuadratic(upper: bool, prev: char, pen: Pen, f: seq<real>)
    requires |f| == 2
    ensures var c := if prev == 'q' || prev == 't' then Reflected(pen) else (pen.x, pen.y);
      Group('t', upper, prev, pen, f) ==
      Group('q', upper, prev, pen, [if upper then c.0 else c.0 - pen.x, if upper then c.1 else c.1 - pen.y] + f)
  {
  }

  /** The numbers and flags of one arc group. */
  datatype ArcArgs = ArcArgs(rx: real, ry: real, rotation: real, largeArc: bool, sweep: bool, x: real, y: real)

  /** Parses one arc group at i: three numbers, a large-arc digit, a sweep
      digit, two numbers, then any white space.  A flag is true unless its
      digit is '0'. */
  function ParseArcArgs(d: string, i: nat): (r: Result<(ArcArgs, nat), PathError>)
    requires i <= |d|
    ensures r.Success? ==> i < r.value.1 <= |d|
    ensures var f := PathFloats(3, d, i);
      var l := if f.Some? then Flag(d, f.value.1) else None;
      var s := if l.Some? then Flag(d, l.value.1) else None;
      var e := if s.Some? then PathFloats(2, d, SkipWhile(d, s.value.1, IsSeparator)) else None;
      (r == Failure(ArcMissingFirstFloats) <==> f.None?) &&
      (r == Failure(ArcMissingLargeArcFlag) <==> f.Some? && l.None?) &&
      (r == Failure(ArcMissingSweepFlag) <==> l.Some? && s.None?) &&
      (r == Failure(ArcMissingLastFloats) <==> s.Some? && e.None?) &&
      (r.Success? <==> e.Some?) &&
      (r.Success? ==>
        r.value.0 == ArcArgs(f.value.0[0], f.value.0[1], f.value.0[2], l.value.0, s.value.0, e.value.0[0], e.value.0[1]) &&
        r.value.1 == SkipWhile(d, e.value.1, IsSpace))
  {
    match PathFloats(3, d, i)
    case None => Failure(ArcMissingFirstFloats)
    case Some((f, p1)) => ArcFlags(d, f, p1)
  }

  /** One flag of an arc group, after any white space and commas: true
      unless its digit is '0'; the index just after the digit. */
  function Flag(d: string, p: nat): (r: Option<(bool, nat)>)
    requires p <= |d|
    ensures r.Some? ==> p < r.value.1 <= |d|
    ensures r.Some? <==> IsDigit(At(d, SkipWhile(d, p, IsSeparator)))
    ensures r.Some? ==> r.value.1 == SkipWhile(d, p, IsSeparator) + 1 && (r.value.0 <==> d[r.value.1 - 1] != '0')
  {
    var q := SkipWhile(d, p, IsSeparator);
    if IsDigit(At(d, q)) then Some((d[q] != '0', q + 1)) else None
  }

  /** The rest of an arc group after its first three numbers. */
  function ArcFlags(d: string, f: seq<real>, p1: nat): (r: Result<(ArcArgs, nat), PathError>)
    requires |f| == 3 && p1 <= |d|
    ensures r.Success? ==> p1 < r.value.1 <= |d|
  {
    match Flag(d, p1)
    case None => Failure(ArcMissingLargeArcFlag)
    case Some((largeArc, p2)) =>
      match Flag(d, p2)
      case None => Failure(ArcMissingSweepFlag)
      case Some((sweep, p3)) => ArcEnd(d, f, largeArc, sweep, SkipWhile(d, p3, IsSeparator))
  }

  /** The end point of an arc group, after its flags. */
  function ArcEnd(d: string, f: seq<real>, largeArc: bool, sweep: bool, p4: nat): (r: Result<(ArcArgs, nat), PathError>)
    requires |f| == 3 && p4 <= |d|
    ensures r.Success? ==> p4 < r.value.1 <= |d|
  {
    match PathFloats(2, d, p4)
    case None => Failure(ArcMissingLastFloats)
    case Some((e, p5)) =>
      Success((ArcArgs(f[0], f[1], f[2], largeArc, sweep, e[0], e[1]), SkipWhile(d, p5, IsSpace)))
  }

  /** Draws one arc group: the cursor moves to the end point; a zero radius
      makes the arc a straight line (`cairo_svg_arc`). */
  function ArcStep(upper: bool, pen: Pen, a: ArcArgs): (r: (Pen, PathOp))
    ensures r.0 == pen.(x := Point(upper, pen, a.x, a.y).0, y := Point(upper, pen, a.x, a.y).1)
  {
    var p := Point(upper, pen, a.x, a.y);
    var op := if a.rx == 0.0 || a.ry == 0.0 then LineTo(p.0, p.1)
              else ArcTo(pen.x, pen.y, a.rx, a.ry, a.rotation, a.largeArc, a.sweep, p.0, p.1);
    (pen.(x := p.0, y := p.1), op)
  }

  /** An arc with a zero radius draws what a line command to the same end
      point draws, and leaves the same registers. */
  lemma ZeroRadiusArcIsLine(upper: bool, prev: char, pen: Pen, a: ArcArgs)
    requires a.rx == 0.0 || a.ry == 0.0
    ensures ArcStep(upper, pen, a) == Group('l', upper, prev, pen, [a.x, a.y])
  {
  }

  /** The implicit repeats of a group command: groups are applied while the
      next group parses. */
  function Repeat(cmd: char, upper: bool, prev: char, d: string, i: nat, pen: Pen): (r: (seq<PathOp>, nat, Pen))
    requires IsGroupCommand(cmd) && i <= |d|
    ensures i <= r.1 <= |d|
    decreases |d| - i
  {
    match PathFloats(Arity(cmd), d, i)
    case None => ([], i, pen)
    case Some((f, q)) =>
      var g := Group(cmd, upper, prev, pen, f);
      var rest := Repeat(cmd, upper, if cmd == 's' then 's' else prev, d, q, g.0);
      ([g.1] + rest.0, rest.1, rest.2)
  }

  /** The repeats of an arc command: groups are read while the text goes on
      with a digit or '-'; a group that does not parse fails the path. */
  function ArcRepeat(d: string, i: nat, upper: bool, pen: Pen): (r: Result<(seq<PathOp>, nat, Pen), PathError>)
    requires i <= |d|
    ensures r.Success? ==> i <= r.value.1 <= |d|
    decreases |d| - i
  {
    if IsDigit(At(d, i)) || At(d, i) == '-' then
      match ParseArcArgs(d, i)
      case Failure(e) => Failure(e)
      case Success((a, q)) =>
        var g := ArcStep(upper, pen, a);
        match ArcRepeat(d, q, upper, g.0)
        case Failure(e) => Failure(e)
        case Success((ops, e, p)) => Success(([g.1] + ops, e, p))
    else Success(([], i, pen))
  }

  function Then(ops: seq<PathOp>, r: Result<seq<PathOp>, PathError>): Result<seq<PathOp>, PathError>
  {
    match r
    case Success(rest) => Success(ops + rest)
    case Failure(e) => Failure(e)
  }

  /** Before the end of path data, skipping white space stops on a letter. */
  lemma CommandAhead(d: string, i: nat)
    requires PathText(d) && i < |d|
    ensures SkipWhile(d, i, IsSpace) < |d|
  {
    assert !IsSpace(d[|d| - 1]);
  }

  /** One pass of the interpreter's outer loop at i: white space, one
      command letter and the groups that follow it.  Yields the operations
      drawn, where the next command starts, the letter read (lower case) and
      the registers; letters that name no command draw nothing. */
  function Command(d: string, i: nat, symbol: char, pen: Pen): (r: Result<(seq<PathOp>, nat, char, Pen), PathError>)
    requires PathText(d) && i < |d|
    ensures r.Success? ==> i < r.value.1 <= |d|
  {
    CommandAhead(d, i);
    var p := SkipWhile(d, i, IsSpace);
    var upper, sym := IsUpper(d[p]), ToLower(d[p]);
    if sym == 'z' then Success(([ClosePath], p + 1, sym, pen))
    else if IsGroupCommand(sym) then
      var g := Repeat(sym, upper, symbol, d, p + 1, pen);
      Success((g.0, g.1, sym, g.2))
    else if sym == 'a' then
      match ArcRepeat(d, SkipWhile(d, p + 1, IsSpace), upper, pen)
      case Failure(e) => Failure(e)
      case Success((ops, q, last)) => Success((ops, q, sym, last))
    else Success(([], p + 1, sym, pen))
  }

  /** The interpreter from index i, where `symbol` is the letter of the
      command before (it becomes `prev_symbol`). */
  function Interpret(d: string, i: nat, symbol: char, pen: Pen): (r: Result<seq<PathOp>, PathError>)
    requires PathText(d) && i <= |d|
    decreases |d| - i
  {
    if i == |d| then Success([])
    else
      match Command(d, i, symbol, pen)
      case Failure(e) => Failure(e)
      case Success((ops, q, sym, last)) => Then(ops, Interpret(d, q, sym, last))
  }

  /** Rasterizing a glyph's path data: the outline, or the arc error. */
  function GlyphOutline(d: string, box: BBox, multiply: real): Result<Outline, PathError>
    requires PathText(d)
  {
    match Interpret(d, 0, 'm', Start)
    case Failure(e) => Failure(e)
    case Success(ops) =>
      Success(Outline(ops, Ceil(box.right - box.left), Ceil(box.top - box.bottom), multiply, -box.left, -box.bottom))
  }

  /** Only the arc command reports errors: a path without 'a' or 'A' always
      rasterizes. */
  lemma {:induction false} OnlyArcsFail(d: string, i: nat, symbol: char, pen: Pen)
    requires PathText(d) && i <= |d|
    requires Interpret(d, i, symbol, pen).Failure?
    ensures exists k :: i <= k < |d| && (d[k] == 'a' || d[k] == 'A')
    decreases |d| - i
  {
    var c := Command(d, i, symbol, pen);
    if c.Failure? {
      CommandAhead(d, i);
      var p := SkipWhile(d, i, IsSpace);
      assert d[p] == 'a' || d[p] == 'A';
    } else {
      OnlyArcsFail(d, c.value.1, c.value.2, c.value.3);
    }
  }

  lemma ThenTwice(a: seq<PathOp>, b: seq<PathOp>, r: Result<seq<PathOp>, PathError>)
    ensures Then(a, Then(b, r)) == Then(a + b, r)
  {
    if r.Success? {
      assert a + (b + r.value) == a + b + r.value;
    }
  }

  /** Reads an arc flag the way the arc branch does: skip separators, then
      the digit. */
  method ReadFlag(d: string, p: nat) returns (r: Option<(bool, nat)>)
    requires p <= |d|
    ensures r == Flag(d, p)
  {
    var nd := SkipLoop(d, p, IsSeparator);
    if !IsDigit(At(d, nd)) {
      return None;
    }
    r := Some((d[nd] != '0', nd + 1));
  }

  method ReadArcArgs(d: string, i: nat) returns (r: Result<(ArcArgs, nat), PathError>)
    requires i <= |d|
    ensures r == ParseArcArgs(d, i)
  {
    var f := SVGParsePathFloats(3, d, i);
    if f.None? {
      return Failure(ArcMissingFirstFloats);
    }
    var largeArc := ReadFlag(d, f.value.1);
    if largeArc.None? {
      return Failure(ArcMissingLargeArcFlag);
    }
    var sweep := ReadFlag(d, largeArc.value.1);
    if sweep.None? {
      return Failure(ArcMissingSweepFlag);
    }
    var nd := SkipLoop(d, sweep.value.1, IsSeparator);
    var e := SVGParsePathFloats(2, d, nd);
    if e.None? {
      return Failure(ArcMissingLastFloats);
    }
    var end := SkipLoop(d, e.value.1, IsSpace);
    var v, w := f.value.0, e.value.0;
    r := Success((ArcArgs(v[0], v[1], v[2], largeArc.value.0, sweep.value.0, w[0], w[1]), end));
  }

  lemma RepeatUnfold(cmd: char, upper: bool, prev: char, d: string, i: nat, pen: Pen, ops: seq<PathOp>)
    requires IsGroupCommand(cmd) && i <= |d|
    requires PathFloats(Arity(cmd), d, i).Some?
    ensures var f := PathFloats(Arity(cmd), d, i).value;
      var g := Group(cmd, upper, prev, pen, f.0);
      var rest := Repeat(cmd, upper, if cmd == 's' then 's' else prev, d, f.1, g.0);
      var all := Repeat(cmd, upper, prev, d, i, pen);
      ops + all.0 == ops + [g.1] + rest.0 && all.1 == rest.1 && all.2 == rest.2
  {
    var f := PathFloats(Arity(cmd), d, i).value;
    var g := Group(cmd, upper, prev, pen, f.0);
    var rest := Repeat(cmd, upper, if cmd == 's' then 's' else prev, d, f.1, g.0);
    assert ops + ([g.1] + rest.0) == ops + [g.1] + rest.0;
  }

  method RepeatGroups(cmd: char, upper: bool, prev: char, d: string, i: nat, pen: Pen)
      returns (ops: seq<PathOp>, end: nat, last: Pen)
    requires IsGroupCommand(cmd) && i <= |d|
    ensures (ops, end, last) == Repeat(cmd, upper, prev, d, i, pen)
  {
    ghost var all := Repeat(cmd, upper, prev, d, i, pen);
    var prevSymbol := prev;
    ops, end, last := [], i, pen;
    var nd := SVGParsePathFloats(Arity(cmd), d, end);
    assert [] + all.0 == all.0;
    while nd.Some?
      invariant end <= |d|
      invariant nd == PathFloats(Arity(cmd), d, end)
      invariant all.0 == ops + Repeat(cmd, upper, prevSymbol, d, end, last).0
      invariant all.1 == Repeat(cmd, upper, prevSymbol, d, end, last).1
      invariant all.2 == Repeat(cmd, upper, prevSymbol, d, end, last).2
      decreases |d| - end
    {
      RepeatUnfold(cmd, upper, prevSymbol, d, end, last, ops);
      var g := Group(cmd, upper, prevSymbol, last, nd.value.0);
      if cmd == 's' {
        prevSymbol := cmd;
      }
      ops, end, last := ops + [g.1], nd.value.1, g.0;
      nd := SVGParsePathFloats(Arity(cmd), d, end);
    }
    assert ops + [] == ops;
  }

  lemma ArcRepeatUnfold(d: string, i: nat, upper: bool, pen: Pen, ops: seq<PathOp>)
    requires i <= |d| && (IsDigit(At(d, i)) || At(d, i) == '-')
    ensures var a := ParseArcArgs(d, i);
      var all := ArcRepeat(d, i, upper, pen);
      (a.Failure? ==> all == Failure(a.error)) &&
      (a.Success? ==>
        var g := ArcStep(upper, pen, a.value.0);
        var rest := ArcRepeat(d, a.value.1, upper, g.0);
        all.Success? == rest.Success? &&
        (rest.Failure? ==> all == rest) &&
        (rest.Success? ==> ops + all.value.0 == ops + [g.1] + rest.value.0 &&
                           all.value.1 == rest.value.1 && all.value.2 == rest.value.2))
  {
    var a := ParseArcArgs(d, i);
    if a.Success? {
      var g := ArcStep(upper, pen, a.value.0);
      var rest := ArcRepeat(d, a.value.1, upper, g.0);
      if rest.Success? {
        assert ops + ([g.1] + rest.value.0) == ops + [g.1] + rest.value.0;
      }
    }
  }

  /** The repeat loop of the arc branch. */
  method RepeatArcs(d: string, i: nat, upper: bool, pen: Pen) returns (r: Result<(seq<PathOp>, nat, Pen), PathError>)
    requires i <= |d|
    ensures r == ArcRepeat(d, i, upper, pen)
  {
    ghost var all := ArcRepeat(d, i, upper, pen);
    var ops: seq<PathOp>, end, last := [], i, pen;
    assert all.Success? ==> [] + all.value.0 == all.value.0;
    while IsDigit(At(d, end)) || At(d, end) == '-'
      invariant i <= end <= |d|
      invariant all.Success? == ArcRepeat(d, end, upper, last).Success?
      invariant all.Failure? ==> all == ArcRepeat(d, end, upper, last)
      invariant all.Success? ==> all.value.0 == ops + ArcRepeat(d, end, upper, last).value.0
      invariant all.Success? ==> all.value.1 == ArcRepeat(d, end, upper, last).value.1
      invariant all.Success? ==> all.value.2 == ArcRepeat(d, end, upper, last).value.2
      decreases |d| - end
    {
      ArcRepeatUnfold(d, end, upper, last, ops);
      var a := ReadArcArgs(d, end);
      if a.Failure? {
        return Failure(a.error);
      }
      var g := ArcStep(upper, last, a.value.0);
      ops, end, last := ops + [g.1], a.value.1, g.0;
    }
    assert ops + [] == ops;
    r := Success((ops, end, last));
  }

  /** The body of the interpreter's outer loop: skip white space, read the
      command letter, and run the command's branch. */
  method RunCommand(d: string, i: nat, symbol: char, pen: Pen) returns (r: Result<(seq<PathOp>, nat, char, Pen), PathError>)
    requires PathText(d) && i < |d|
    ensures r == Command(d, i, symbol, pen)
  {
    CommandAhead(d, i);
    var pos := SkipLoop(d, i, IsSpace);
    var prevSymbol := symbol;
    var upper := IsUpper(d[pos]);
    var sym := ToLower(d[pos]);
    pos := pos + 1;
    if sym == 'z' {
      r := Success(([ClosePath], pos, sym, pen));
    } else if IsGroupCommand(sym) {
      var ops, end, last := RepeatGroups(sym, upper, prevSymbol, d, pos, pen);
      r := Success((ops, end, sym, last));
    } else if sym == 'a' {
      pos := SkipLoop(d, pos, IsSpace);
      var arcs := RepeatArcs(d, pos, upper, pen);
      if arcs.Failure? {
        return Failure(arcs.error);
      }
      r := Success((arcs.value.0, arcs.value.1, sym, arcs.value.2));
    } else {
      r := Success(([], pos, sym, pen));
    }
  }

  /** `ParseGlyphPath`: runs the path data d of a glyph with the registers
      and the previous symbol in local variables, and yields the outline
      or the first arc error. */
  method ParseGlyphPath(d: string, box: BBox, multiply: real) returns (r: Result<Outline, PathError>)
    requires PathText(d)
    ensures r == GlyphOutline(d, box, multiply)
  {
    var texW, texH := Ceil(box.right - box.left), Ceil(box.top - box.bottom);
    ghost var total := Interpret(d, 0, 'm', Start);
    var ops: seq<PathOp> := [];
    var pen := Start;
    var symbol := 'm';
    var pos: nat := 0;
    assert Then([], total) == total by { if total.Success? { assert [] + total.value == total.value; } }
    while pos < |d|
      invariant pos <= |d|
      invariant total == Then(ops, Interpret(d, pos, symbol, pen))
      decreases |d| - pos
    {
      var step := RunCommand(d, pos, symbol, pen);
      if step.Failure? {
        return Failure(step.error);
      }
      ThenTwice(ops, step.value.0, Interpret(d, step.value.1, step.value.2, step.value.3));
      ops, pos, symbol, pen := ops + step.value.0, step.value.1, step.value.2, step.value.3;
    }
    assert ops + [] == ops;
    r := Success(Outline(ops, texW, texH, multiply, -box.left, -box.bottom));
  }
}
