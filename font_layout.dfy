/** The layout engine of src/font.cpp: word and line measurement, line
    breaking and `ThroughText`, the walk every text query is built on.
    Text is the sequence of code points the UTF-8 decoder yields; the end of
    the sequence is the string's terminating NUL. */
module FontLayout {
  import opened Wrappers
  import opened Chars
  import opened FontData

  predicate IsNewline(c: int)
  {
    c == 10 || c == 13
  }

  /** The glyph drawn for code point c, with the code point carried on as
      the next kerning partner ('?' when c has no glyph). */
  function Step(font: Font, prev: int, c: int, x: real): (r: (int, Glyph, real))
    requires Usable(font)
    ensures r.0 == Lookup(font, c).0 && r.1 == Lookup(font, c).1
    ensures x <= 0.0 ==> r.2 == x
  {
    var l := Lookup(font, c);
    (l.0, l.1, if x > 0.0 then x - GetHKern(font, prev, l.0) else x)
  }

  // ---------------------------------------------------------------------
  // NextWordWidth

  /** The first loop of `NextWordWidth`: the white space before the word.
      Returns where it stopped, the code point it holds then and the width. */
  function LeadingSpaces(font: Font, text: seq<int>, pos: nat, c: int, w: real): (r: (nat, int, real))
    requires Usable(font) && pos <= |text|
    ensures pos <= r.0 <= |text|
    ensures forall k :: pos <= k < r.0 ==> IsSpaceCode(text[k])
    ensures r.0 < |text| ==> !IsSpaceCode(text[r.0]) && r.1 == text[r.0]
    decreases |text| - pos
  {
    if pos == |text| then (pos, c, w)
    else if IsSpaceCode(text[pos]) then
      var l := Lookup(font, text[pos]);
      LeadingSpaces(font, text, pos + 1, l.0, w + (-GetHKern(font, c, l.0) + GetHAdv(font, Some(l.1))))
    else (pos, text[pos], w)
  }

  /** The second loop of `NextWordWidth`: the word up to the next space. */
  function WordLetters(font: Font, text: seq<int>, pos: nat, c: int, w: real): real
    requires Usable(font) && pos <= |text|
    decreases |text| - pos
  {
    if pos == |text| || IsSpaceCode(text[pos]) then w
    else
      var l := Lookup(font, text[pos]);
      WordLetters(font, text, pos + 1, l.0, w + (-GetHKern(font, c, l.0) + GetHAdv(font, Some(l.1))))
  }

  /** What `NextWordWidth` measures at pos after prev: the leading white
      space and the word after it.  The word's first letter is kerned with
      itself, since the first loop leaves it as the previous code point. */
  function WordWidth(font: Font, text: seq<int>, pos: nat, prev: int): real
    requires Usable(font) && pos <= |text|
  {
    var s := LeadingSpaces(font, text, pos, prev, 0.0);
    WordLetters(font, text, s.0, s.1, s.2)
  }

  /** The end of the white space and the word after pos. */
  function WordEnd(text: seq<int>, pos: nat): nat
    requires pos <= |text|
  {
    SkipWhile(text, SkipWhile(text, pos, IsSpaceCode), c => !IsSpaceCode(c))
  }

  /** The sum of the advances of the glyphs drawn for s. */
  function Advances(font: Font, s: seq<int>): real
    requires Usable(font)
  {
    if s == [] then 0.0 else Advance(font, s[0]) + Advances(font, s[1..])
  }

  /** Without kerning, a word's width is the sum of the advances of its
      leading white space and its letters. */
  lemma {:induction false} WordWidthWithoutKerning(font: Font, text: seq<int>, pos: nat, prev: int)
    requires Usable(font) && pos <= |text| && font.hKernTable == map[]
    ensures WordWidth(font, text, pos, prev) == Advances(font, text[pos..WordEnd(text, pos)])
  {
    var s := LeadingSpaces(font, text, pos, prev, 0.0);
    var mid := SkipWhile(text, pos, IsSpaceCode);
    SpacesWithoutKerning(font, text, pos, prev, 0.0);
    LettersWithoutKerning(font, text, mid, s.1, s.2);
    AdvancesAppend(font, text[pos..mid], text[mid..WordEnd(text, pos)]);
    assert text[pos..mid] + text[mid..WordEnd(text, pos)] == text[pos..WordEnd(text, pos)];
  }

  lemma {:induction false} SpacesWithoutKerning(font: Font, text: seq<int>, pos: nat, c: int, w: real)
    requires Usable(font) && pos <= |text| && font.hKernTable == map[]
    ensures LeadingSpaces(font, text, pos, c, w).0 == SkipWhile(text, pos, IsSpaceCode)
    ensures LeadingSpaces(font, text, pos, c, w).2 == w + Advances(font, text[pos..SkipWhile(text, pos, IsSpaceCode)])
    decreases |text| - pos
  {
    if pos < |text| && IsSpaceCode(text[pos]) {
      var l := Lookup(font, text[pos]);
      SpacesWithoutKerning(font, text, pos + 1, l.0, w + (-GetHKern(font, c, l.0) + GetHAdv(font, Some(l.1))));
      var e := SkipWhile(text, pos, IsSpaceCode);
      assert text[pos..e][1..] == text[pos + 1..e];
    } else {
      assert text[pos..pos] == [];
    }
  }

  lemma {:induction false} LettersWithoutKerning(font: Font, text: seq<int>, pos: nat, c: int, w: real)
    requires Usable(font) && pos <= |text| && font.hKernTable == map[]
    ensures WordLetters(font, text, pos, c, w) == w + Advances(font, text[pos..SkipWhile(text, pos, c => !IsSpaceCode(c))])
    decreases |text| - pos
  {
    var e := SkipWhile(text, pos, c => !IsSpaceCode(c));
    if pos < |text| && !IsSpaceCode(text[pos]) {
      var l := Lookup(font, text[pos]);
      LettersWithoutKerning(font, text, pos + 1, l.0, w + (-GetHKern(font, c, l.0) + GetHAdv(font, Some(l.1))));
      assert text[pos..e][1..] == text[pos + 1..e];
    } else {
      assert text[pos..e] == [];
    }
  }

  lemma {:induction false} AdvancesAppend(font: Font, a: seq<int>, b: seq<int>)
    requires Usable(font)
    ensures Advances(font, a + b) == Advances(font, a) + Advances(font, b)
    decreases |a|
  {
    if a != [] {
      assert (a + b)[1..] == a[1..] + b;
      AdvancesAppend(font, a[1..], b);
    } else {
      assert a + b == b;
    }
  }

  /** `NextWordWidth`. */
  method NextWordWidth(font: Font, text: seq<int>, pos: nat, prev: int) returns (w: real)
    requires Usable(font) && pos <= |text|
    ensures w == WordWidth(font, text, pos, prev)
  {
    w := 0.0;
    var c := prev;
    var p := pos;
    while p < |text| && IsSpaceCode(text[p])
      invariant pos <= p <= |text|
      invariant LeadingSpaces(font, text, p, c, w) == LeadingSpaces(font, text, pos, prev, 0.0)
      decreases |text| - p
    {
      var prevC := c;
      var l := Lookup(font, text[p]);
      c := l.0;
      w := w + (-GetHKern(font, prevC, c) + GetHAdv(font, Some(l.1)));
      p := p + 1;
    }
    if p < |text| {
      c := text[p];
    }
    while p < |text| && !IsSpaceCode(text[p])
      invariant pos <= p <= |text|
      invariant WordLetters(font, text, p, c, w) == WordWidth(font, text, pos, prev)
      decreases |text| - p
    {
      var prevC := c;
      var l := Lookup(font, text[p]);
      c := l.0;
      w := w + (-GetHKern(font, prevC, c) + GetHAdv(font, Some(l.1)));
      p := p + 1;
    }
  }

  // ---------------------------------------------------------------------
  // NeedNewLine and CleanLineEnd

  /** `NeedNewLine`: whether the line must break before the code point at
      pos, with the pen at x after prev. */
  function NeedNewLine(font: Font, prev: int, text: seq<int>, pos: nat, x: real, maxW: real): (r: bool)
    requires Usable(font) && pos < |text|
    ensures IsNewline(text[pos]) ==> r
    ensures maxW <= 0.0 ==> (r <==> IsNewline(text[pos]))
    ensures maxW > 0.0 && !IsNewline(text[pos]) ==>
      (r <==> (IsSpaceCode(prev) && !IsSpaceCode(text[pos]) && x > 0.0 && maxW < x + WordWidth(font, text, pos, prev))
              || x + Advance(font, text[pos]) > maxW)
  {
    var c := text[pos];
    if IsNewline(c) then true
    else if maxW > 0.0 then
      if IsSpaceCode(prev) && !IsSpaceCode(c) && x > 0.0 && maxW > 0.0 && maxW < x + WordWidth(font, text, pos, prev) then true
      else x + Advance(font, c) > maxW
    else false
  }

  /** `CleanLineEnd`: the white space consumed at a line break, up to and
      including the first newline.  Returns the count and the position
      after it. */
  function LineEnd(text: seq<int>, pos: nat): (r: (nat, nat))
    requires pos <= |text|
    ensures pos <= r.1 <= |text| && r.0 == r.1 - pos
    ensures forall k :: pos <= k < r.1 ==> IsSpaceCode(text[k])
    ensures forall k :: pos <= k < r.1 - 1 ==> !IsNewline(text[k])
    ensures r.1 == |text| || !IsSpaceCode(text[r.1]) || (pos < r.1 && IsNewline(text[r.1 - 1]))
    decreases |text| - pos
  {
    if pos == |text| then (0, pos)
    else if IsNewline(text[pos]) then (1, pos + 1)
    else if IsSpaceCode(text[pos]) then
      var r := LineEnd(text, pos + 1);
      (r.0 + 1, r.1)
    else (0, pos)
  }

  method CleanLineEnd(text: seq<int>, pos: nat) returns (n: nat, next: nat)
    requires pos <= |text|
    ensures (n, next) == LineEnd(text, pos)
  {
    n, next := 0, pos;
    while next < |text|
      invariant pos <= next <= |text| && n == next - pos
      invariant LineEnd(text, pos) == (LineEnd(text, next).0 + n, LineEnd(text, next).1)
      decreases |text| - next
    {
      var c := text[next];
      if IsNewline(c) {
        return n + 1, next + 1;
      } else if IsSpaceCode(c) {
        n, next := n + 1, next + 1;
      } else {
        return;
      }
    }
  }

  // ---------------------------------------------------------------------
  // NextLineWidth

  /** The loop of `NextLineWidth` from pos, after c, with the pen at x and
      the width w of the line so far (the right edge of its last
      non-space glyph). */
  function LineWidthFrom(font: Font, text: seq<int>, maxW: real, pos: nat, c: int, x: real, w: real): real
    requires Usable(font) && pos <= |text|
    decreases |text| - pos
  {
    if pos == |text| || NeedNewLine(font, c, text, pos, x, maxW) then w
    else
      var s := Step(font, c, text[pos], x);
      var x2 := s.2 + GetHAdv(font, Some(s.1));
      LineWidthFrom(font, text, maxW, pos + 1, s.0, x2, if IsSpaceCode(s.0) then w else x2)
  }

  /** What `NextLineWidth` returns for the line starting at pos. */
  function LineWidth(font: Font, text: seq<int>, pos: nat, maxW: real): real
    requires Usable(font) && pos <= |text|
  {
    LineWidthFrom(font, text, maxW, pos, 0, 0.0, 0.0)
  }

  /** Fonts whose kerning only ever pulls glyphs together. */
  ghost predicate NonNegativeKerning(font: Font)
  {
    forall a, b :: Entry(font.hKernTable, a, b).Some? ==> Entry(font.hKernTable, a, b).value >= 0.0
  }

  /** With a positive maximum and kerning that only pulls glyphs together,
      a measured line is never wider than the maximum. */
  lemma {:induction false} LineFits(font: Font, text: seq<int>, maxW: real, pos: nat, c: int, x: real, w: real)
    requires Usable(font) && pos <= |text| && NonNegativeKerning(font)
    requires maxW > 0.0 && w <= maxW
    ensures LineWidthFrom(font, text, maxW, pos, c, x, w) <= maxW
    decreases |text| - pos
  {
    if pos < |text| && !NeedNewLine(font, c, text, pos, x, maxW) {
      var s := Step(font, c, text[pos], x);
      assert GetHKern(font, c, s.0) >= 0.0;
      var x2 := s.2 + GetHAdv(font, Some(s.1));
      LineFits(font, text, maxW, pos + 1, s.0, x2, if IsSpaceCode(s.0) then w else x2);
    }
  }

  method NextLineWidth(font: Font, text: seq<int>, pos: nat, maxW: real) returns (w: real)
    requires Usable(font) && pos <= |text|
    ensures w == LineWidth(font, text, pos, maxW)
  {
    var x := 0.0;
    w := 0.0;
    var c := 0;
    var p := pos;
    while p < |text|
      invariant pos <= p <= |text|
      invariant LineWidthFrom(font, text, maxW, p, c, x, w) == LineWidth(font, text, pos, maxW)
      decreases |text| - p
    {
      var prevC := c;
      if NeedNewLine(font, prevC, text, p, x, maxW) {
        return;
      }
      var l := Lookup(font, text[p]);
      c := l.0;
      if x > 0.0 {
        x := x - GetHKern(font, prevC, c);
      }
      x := x + GetHAdv(font, Some(l.1));
      if !IsSpaceCode(c) {
        w := x;
      }
      p := p + 1;
    }
  }

  // ---------------------------------------------------------------------
  // ThroughText

  /** Horizontal alignment of the lines (`align & 0x0f`). */
  datatype Align = Left | Mid | Right

  /** One visitor call of `ThroughText`: the glyph (None for the call after
      the last code point), where its origin goes and the code point index. */
  datatype Placement = Placement(glyph: Option<Glyph>, x: real, y: real, index: nat)

  /** A visitor call before alignment, with the width of its line. */
  datatype Visit = Visit(glyph: Option<Glyph>, x: real, y: real, index: nat, lineWidth: real)

  /** Texts the walk can lay out: with a positive maximum width, every
      glyph fits on a line of its own. */
  predicate WidthsFit(font: Font, text: seq<int>, maxW: real)
    requires Usable(font)
  {
    maxW > 0.0 ==> forall k :: 0 <= k < |text| ==> Advance(font, text[k]) <= maxW
  }

  /** At the start of a line no break is needed before a glyph that fits,
      so a break there always consumes a newline. */
  lemma BreakMakesProgress(font: Font, text: seq<int>, maxW: real, pos: nat, c: int, x: real)
    requires Usable(font) && WidthsFit(font, text, maxW) && pos < |text|
    requires NeedNewLine(font, c, text, pos, x, maxW)
    ensures c == 0 && x == 0.0 ==> LineEnd(text, pos).1 > pos
  {
  }

  /** The loop of `ThroughText` from pos, after c, with the pen at (x, y)
      on a line of width lw; the last visit is the one for the end. */
  function Walk(font: Font, text: seq<int>, maxW: real, pos: nat, c: int, x: real, y: real, lw: real): (r: seq<Visit>)
    requires Usable(font) && WidthsFit(font, text, maxW) && pos <= |text|
    decreases |text| - pos, if c == 0 && x == 0.0 then 0 else 1
  {
    if pos == |text| then [Visit(None, x, y, pos, lw)]
    else if NeedNewLine(font, c, text, pos, x, maxW) then
      var next := LineEnd(text, pos).1;
      BreakMakesProgress(font, text, maxW, pos, c, x);
      Walk(font, text, maxW, next, 0, 0.0, y + GetLineSpacing(font), LineWidth(font, text, next, maxW))
    else
      var s := Step(font, c, text[pos], x);
      [Visit(Some(s.1), s.2, y, pos, lw)] + Walk(font, text, maxW, pos + 1, s.0, s.2 + GetHAdv(font, Some(s.1)), y, lw)
  }

  /** The visits of a whole text. */
  function Visits(font: Font, text: seq<int>, maxW: real): seq<Visit>
    requires Usable(font) && WidthsFit(font, text, maxW)
  {
    Walk(font, text, maxW, 0, 0, 0.0, 0.0, LineWidth(font, text, 0, maxW))
  }

  /** The x a visit is reported at: moved left by half or all of its line's
      width for centred or right-aligned text. */
  function AlignedX(x: real, lineWidth: real, align: Align): real
  {
    match align
    case Left => x
    case Mid => x - lineWidth / 2.0
    case Right => x - lineWidth
  }

  function Place(vs: seq<Visit>, align: Align): seq<Placement>
  {
    if vs == [] then []
    else [Placement(vs[0].glyph, AlignedX(vs[0].x, vs[0].lineWidth, align), vs[0].y, vs[0].index)] + Place(vs[1..], align)
  }

  /** The visitor calls `ThroughText` makes, in order, when the visitor
      never asks it to stop. */
  function Layout(font: Font, text: seq<int>, align: Align, maxW: real): seq<Placement>
    requires Usable(font) && WidthsFit(font, text, maxW)
  {
    Place(Visits(font, text, maxW), align)
  }

  lemma WalkGlyph(font: Font, text: seq<int>, maxW: real, align: Align, pos: nat, c: int, x: real, y: real, lw: real)
    requires Usable(font) && WidthsFit(font, text, maxW) && pos < |text|
    requires !NeedNewLine(font, c, text, pos, x, maxW)
    ensures var s := Step(font, c, text[pos], x);
      Place(Walk(font, text, maxW, pos, c, x, y, lw), align) ==
      [Placement(Some(s.1), AlignedX(s.2, lw, align), y, pos)] +
      Place(Walk(font, text, maxW, pos + 1, s.0, s.2 + GetHAdv(font, Some(s.1)), y, lw), align)
  {
    var w := Walk(font, text, maxW, pos, c, x, y, lw);
    assert w[1..] == Walk(font, text, maxW, pos + 1, Step(font, c, text[pos], x).0,
                          Step(font, c, text[pos], x).2 + GetHAdv(font, Some(Step(font, c, text[pos], x).1)), y, lw);
  }

  lemma WalkBreak(font: Font, text: seq<int>, maxW: real, pos: nat, c: int, x: real, y: real, lw: real)
    requires Usable(font) && WidthsFit(font, text, maxW) && pos < |text|
    requires NeedNewLine(font, c, text, pos, x, maxW)
    ensures var next := LineEnd(text, pos).1;
      Walk(font, text, maxW, pos, c, x, y, lw) ==
      Walk(font, text, maxW, next, 0, 0.0, y + GetLineSpacing(font), LineWidth(font, text, next, maxW))
  {
  }

  /** One glyph of `ThroughText`: look it up, kern it, align it; returns
      the code point carried on, the pen after it and the visitor call. */
  method PlaceGlyph(font: Font, text: seq<int>, maxW: real, align: Align, i: nat, prevC: int, x: real, y: real, lineWidth: real)
    returns (c: int, next: real, call: Placement)
    requires Usable(font) && WidthsFit(font, text, maxW) && i < |text|
    requires !NeedNewLine(font, prevC, text, i, x, maxW)
    ensures Place(Walk(font, text, maxW, i, prevC, x, y, lineWidth), align) ==
      [call] + Place(Walk(font, text, maxW, i + 1, c, next, y, lineWidth), align)
  {
    WalkGlyph(font, text, maxW, align, i, prevC, x, y, lineWidth);
    var l := Lookup(font, text[i]);
    c := l.0;
    next := x;
    if next > 0.0 {
      next := next - GetHKern(font, prevC, c);
    }
    call := Placement(Some(l.1), AlignedX(next, lineWidth, align), y, i);
    next := next + GetHAdv(font, Some(l.1));
  }

  /** A line break in `ThroughText`: skip the white space ending the line,
      measure the next line and move down one line. */
  method StartNewLine(font: Font, text: seq<int>, maxW: real, i: nat, prevC: int, x: real, y: real, lineWidth: real)
    returns (next: nat, nextWidth: real, nextY: real)
    requires Usable(font) && WidthsFit(font, text, maxW) && i < |text|
    requires NeedNewLine(font, prevC, text, i, x, maxW)
    ensures i <= next <= |text| && (next == i ==> !(prevC == 0 && x == 0.0))
    ensures Walk(font, text, maxW, i, prevC, x, y, lineWidth) == Walk(font, text, maxW, next, 0, 0.0, nextY, nextWidth)
  {
    BreakMakesProgress(font, text, maxW, i, prevC, x);
    WalkBreak(font, text, maxW, i, prevC, x, y, lineWidth);
    var n, after := CleanLineEnd(text, i);
    next := i + n;
    nextWidth := NextLineWidth(font, text, next, maxW);
    nextY := y + GetLineSpacing(font);
  }

  /** `ThroughText`, returning its visitor calls.  A visitor that stops the
      walk sees a prefix of them; the walk has no other effect. */
  method ThroughText(font: Font, text: seq<int>, align: Align, maxW: real) returns (calls: seq<Placement>)
    requires Usable(font) && WidthsFit(font, text, maxW)
    ensures calls == Layout(font, text, align, maxW)
  {
    var i: nat := 0;
    var x, y := 0.0, 0.0;
    var lineWidth := NextLineWidth(font, text, 0, maxW);
    var c := 0;
    calls := [];
    while i < |text|
      invariant i <= |text|
      invariant calls + Place(Walk(font, text, maxW, i, c, x, y, lineWidth), align) == Layout(font, text, align, maxW)
      decreases |text| - i, if c == 0 && x == 0.0 then 0 else 1
    {
      i, c, x, y, lineWidth, calls := WalkStep(font, text, maxW, align, i, c, x, y, lineWidth, calls);
    }
    WalkEnd(font, text, maxW, align, c, x, y, lineWidth);
    calls := calls + [Placement(None, AlignedX(x, lineWidth, align), y, i)];
  }

  /** One turn of the loop of `ThroughText`: a line break, or one glyph
      whose visitor call is appended to calls. */
  method WalkStep(font: Font, text: seq<int>, maxW: real, align: Align, i: nat, c: int, x: real, y: real, lineWidth: real, calls: seq<Placement>)
    returns (i': nat, c': int, x': real, y': real, lineWidth': real, calls': seq<Placement>)
    requires Usable(font) && WidthsFit(font, text, maxW) && i < |text|
    ensures i <= i' <= |text| && (i' == i ==> c' == 0 && x' == 0.0 && !(c == 0 && x == 0.0))
    ensures calls + Place(Walk(font, text, maxW, i, c, x, y, lineWidth), align) ==
      calls' + Place(Walk(font, text, maxW, i', c', x', y', lineWidth'), align)
  {
    if NeedNewLine(font, c, text, i, x, maxW) {
      i', lineWidth', y' := StartNewLine(font, text, maxW, i, c, x, y, lineWidth);
      c', x', calls' := 0, 0.0, calls;
    } else {
      var placed;
      c', x', placed := PlaceGlyph(font, text, maxW, align, i, c, x, y, lineWidth);
      i', y', lineWidth', calls' := i + 1, y, lineWidth, calls + [placed];
      assert calls + ([placed] + Place(Walk(font, text, maxW, i', c', x', y', lineWidth'), align)) ==
        calls' + Place(Walk(font, text, maxW, i', c', x', y', lineWidth'), align);
    }
  }

  lemma WalkEnd(font: Font, text: seq<int>, maxW: real, align: Align, c: int, x: real, y: real, lw: real)
    requires Usable(font) && WidthsFit(font, text, maxW)
    ensures Place(Walk(font, text, maxW, |text|, c, x, y, lw), align) == [Placement(None, AlignedX(x, lw, align), y, |text|)]
  {
  }

  // ---------------------------------------------------------------------
  // Properties of the walk

  /** Visits r of the code points from pos on: in order, each at most once,
      each with the glyph drawn for it, ending with the visit for the end of
      the text. */
  predicate InOrderFrom(font: Font, text: seq<int>, pos: nat, r: seq<Visit>)
    requires Usable(font)
  {
    && |r| >= 1 && r[|r| - 1].glyph.None? && r[|r| - 1].index == |text|
    && (forall k :: 0 <= k < |r| - 1 ==> pos <= r[k].index < |text| && r[k].glyph == Some(Lookup(font, text[r[k].index]).1))
    && (forall j, k :: 0 <= j < k < |r| ==> pos <= r[j].index < r[k].index)
  }

  /** The walk from pos visits the code points from pos on in order. */
  lemma {:induction false} WalkIndices(font: Font, text: seq<int>, maxW: real, pos: nat, c: int, x: real, y: real, lw: real)
    requires Usable(font) && WidthsFit(font, text, maxW) && pos <= |text|
    ensures InOrderFrom(font, text, pos, Walk(font, text, maxW, pos, c, x, y, lw))
    decreases |text| - pos, if c == 0 && x == 0.0 then 0 else 1, 1
  {
    if pos == |text| {
      assert Walk(font, text, maxW, pos, c, x, y, lw) == [Visit(None, x, y, pos, lw)];
    } else if NeedNewLine(font, c, text, pos, x, maxW) {
      BreakIndices(font, text, maxW, pos, c, x, y, lw);
    } else {
      GlyphIndices(font, text, maxW, pos, c, x, y, lw);
    }
  }

  lemma {:induction false} BreakIndices(font: Font, text: seq<int>, maxW: real, pos: nat, c: int, x: real, y: real, lw: real)
    requires Usable(font) && WidthsFit(font, text, maxW) && pos < |text|
    requires NeedNewLine(font, c, text, pos, x, maxW)
    ensures InOrderFrom(font, text, pos, Walk(font, text, maxW, pos, c, x, y, lw))
    decreases |text| - pos, if c == 0 && x == 0.0 then 0 else 1, 0
  {
    var next := LineEnd(text, pos).1;
    BreakMakesProgress(font, text, maxW, pos, c, x);
    WalkBreak(font, text, maxW, pos, c, x, y, lw);
    WalkIndices(font, text, maxW, next, 0, 0.0, y + GetLineSpacing(font), LineWidth(font, text, next, maxW));
  }

  lemma {:induction false} GlyphIndices(font: Font, text: seq<int>, maxW: real, pos: nat, c: int, x: real, y: real, lw: real)
    requires Usable(font) && WidthsFit(font, text, maxW) && pos < |text|
    requires !NeedNewLine(font, c, text, pos, x, maxW)
    ensures InOrderFrom(font, text, pos, Walk(font, text, maxW, pos, c, x, y, lw))
    decreases |text| - pos, if c == 0 && x == 0.0 then 0 else 1, 0
  {
    var s := Step(font, c, text[pos], x);
    var rest := Walk(font, text, maxW, pos + 1, s.0, s.2 + GetHAdv(font, Some(s.1)), y, lw);
    WalkIndices(font, text, maxW, pos + 1, s.0, s.2 + GetHAdv(font, Some(s.1)), y, lw);
    var v := Visit(Some(s.1), s.2, y, pos, lw);
    assert Walk(font, text, maxW, pos, c, x, y, lw) == [v] + rest;
    VisitBefore(font, text, pos, v, rest);
  }

  /** A visit for pos with its glyph, put before visits in order from
      pos + 1, gives visits in order from pos. */
  lemma VisitBefore(font: Font, text: seq<int>, pos: nat, v: Visit, rest: seq<Visit>)
    requires Usable(font) && pos < |text| && v.index == pos && v.glyph == Some(Lookup(font, text[pos]).1)
    requires InOrderFrom(font, text, pos + 1, rest)
    ensures InOrderFrom(font, text, pos, [v] + rest)
  {
    var r := [v] + rest;
    assert forall k :: 1 <= k < |r| ==> r[k] == rest[k - 1];
  }

  /** Visits r laid out in lines, starting from the pen at (x, y) on a
      line of width lw, with a positive line spacing: y never decreases,
      and where it changes a new line has started, so y has grown by at
      least the line spacing, the pen is back at x = 0, and the line width
      is the new line's; on one line the line width stays the same. */
  predicate InLines(font: Font, x: real, y: real, lw: real, r: seq<Visit>)
  {
    && |r| >= 1
    && ((r[0].y == y && r[0].lineWidth == lw) || r[0].y >= y + GetLineSpacing(font))
    && ((x == 0.0 || r[0].y != y) ==> r[0].x == 0.0)
    && (forall k :: 0 < k < |r| ==>
         (r[k].y == r[k - 1].y && r[k].lineWidth == r[k - 1].lineWidth) ||
         (r[k].y >= r[k - 1].y + GetLineSpacing(font) && r[k].x == 0.0))
  }

  /** The walk lays its visits out in lines. */
  lemma {:induction false} WalkLines(font: Font, text: seq<int>, maxW: real, pos: nat, c: int, x: real, y: real, lw: real)
    requires Usable(font) && WidthsFit(font, text, maxW) && pos <= |text| && GetLineSpacing(font) > 0.0
    ensures InLines(font, x, y, lw, Walk(font, text, maxW, pos, c, x, y, lw))
    decreases |text| - pos, if c == 0 && x == 0.0 then 0 else 1, 1
  {
    if pos == |text| {
      assert Walk(font, text, maxW, pos, c, x, y, lw) == [Visit(None, x, y, pos, lw)];
    } else if NeedNewLine(font, c, text, pos, x, maxW) {
      BreakLines(font, text, maxW, pos, c, x, y, lw);
    } else {
      GlyphLines(font, text, maxW, pos, c, x, y, lw);
    }
  }

  lemma {:induction false} BreakLines(font: Font, text: seq<int>, maxW: real, pos: nat, c: int, x: real, y: real, lw: real)
    requires Usable(font) && WidthsFit(font, text, maxW) && pos < |text| && GetLineSpacing(font) > 0.0
    requires NeedNewLine(font, c, text, pos, x, maxW)
    ensures InLines(font, x, y, lw, Walk(font, text, maxW, pos, c, x, y, lw))
    decreases |text| - pos, if c == 0 && x == 0.0 then 0 else 1, 0
  {
    var next := LineEnd(text, pos).1;
    BreakMakesProgress(font, text, maxW, pos, c, x);
    WalkBreak(font, text, maxW, pos, c, x, y, lw);
    WalkLines(font, text, maxW, next, 0, 0.0, y + GetLineSpacing(font), LineWidth(font, text, next, maxW));
  }

  lemma {:induction false} GlyphLines(font: Font, text: seq<int>, maxW: real, pos: nat, c: int, x: real, y: real, lw: real)
    requires Usable(font) && WidthsFit(font, text, maxW) && pos < |text| && GetLineSpacing(font) > 0.0
    requires !NeedNewLine(font, c, text, pos, x, maxW)
    ensures InLines(font, x, y, lw, Walk(font, text, maxW, pos, c, x, y, lw))
    decreases |text| - pos, if c == 0 && x == 0.0 then 0 else 1, 0
  {
    var s := Step(font, c, text[pos], x);
    var next := s.2 + GetHAdv(font, Some(s.1));
    var rest := Walk(font, text, maxW, pos + 1, s.0, next, y, lw);
    WalkLines(font, text, maxW, pos + 1, s.0, next, y, lw);
    var v := Visit(Some(s.1), s.2, y, pos, lw);
    assert Walk(font, text, maxW, pos, c, x, y, lw) == [v] + rest;
    var r := [v] + rest;
    assert forall k :: 1 <= k < |r| ==> r[k] == rest[k - 1];
  }

  /** With a positive maximum and kerning that only pulls glyphs together,
      every line's measured width, the one alignment shifts by, is within
      the maximum. */
  lemma {:induction false} WalkLineWidths(font: Font, text: seq<int>, maxW: real, pos: nat, c: int, x: real, y: real, lw: real)
    requires Usable(font) && WidthsFit(font, text, maxW) && pos <= |text|
    requires NonNegativeKerning(font) && maxW > 0.0 && lw <= maxW
    ensures forall v :: v in Walk(font, text, maxW, pos, c, x, y, lw) ==> v.lineWidth <= maxW
    decreases |text| - pos, if c == 0 && x == 0.0 then 0 else 1
  {
    if pos < |text| {
      if NeedNewLine(font, c, text, pos, x, maxW) {
        var next := LineEnd(text, pos).1;
        BreakMakesProgress(font, text, maxW, pos, c, x);
        LineFits(font, text, maxW, next, 0, 0.0, 0.0);
        WalkLineWidths(font, text, maxW, next, 0, 0.0, y + GetLineSpacing(font), LineWidth(font, text, next, maxW));
      } else {
        var s := Step(font, c, text[pos], x);
        WalkLineWidths(font, text, maxW, pos + 1, s.0, s.2 + GetHAdv(font, Some(s.1)), y, lw);
      }
    }
  }

  /** Every line `ThroughText` aligns was measured within the maximum. */
  lemma MeasuredLinesFit(font: Font, text: seq<int>, maxW: real)
    requires Usable(font) && WidthsFit(font, text, maxW) && NonNegativeKerning(font) && maxW > 0.0
    ensures forall v :: v in Visits(font, text, maxW) ==> v.lineWidth <= maxW
  {
    LineFits(font, text, maxW, 0, 0, 0.0, 0.0);
    WalkLineWidths(font, text, maxW, 0, 0, 0.0, 0.0, LineWidth(font, text, 0, maxW));
  }

  lemma {:induction false} PlaceEach(vs: seq<Visit>, align: Align)
    ensures |Place(vs, align)| == |vs|
    ensures forall k :: 0 <= k < |vs| ==>
      Place(vs, align)[k] == Placement(vs[k].glyph, AlignedX(vs[k].x, vs[k].lineWidth, align), vs[k].y, vs[k].index)
  {
    if vs != [] {
      PlaceEach(vs[1..], align);
    }
  }

  /** The walk from pos visits every code point from pos on that is not
      white space: the only code points a line break passes over without a
      visit are the white space `CleanLineEnd` consumes.  Returns the
      visit's position. */
  lemma {:induction false} WalkVisits(font: Font, text: seq<int>, maxW: real, pos: nat, c: int, x: real, y: real, lw: real, k: nat)
    returns (j: nat)
    requires Usable(font) && WidthsFit(font, text, maxW) && pos <= k < |text| && !IsSpaceCode(text[k])
    ensures j < |Walk(font, text, maxW, pos, c, x, y, lw)| - 1
    ensures Walk(font, text, maxW, pos, c, x, y, lw)[j].index == k
    decreases |text| - pos, if c == 0 && x == 0.0 then 0 else 1
  {
    WalkIndices(font, text, maxW, pos, c, x, y, lw);
    if NeedNewLine(font, c, text, pos, x, maxW) {
      var next := LineEnd(text, pos).1;
      BreakMakesProgress(font, text, maxW, pos, c, x);
      WalkBreak(font, text, maxW, pos, c, x, y, lw);
      j := WalkVisits(font, text, maxW, next, 0, 0.0, y + GetLineSpacing(font), LineWidth(font, text, next, maxW), k);
    } else if k == pos {
      j := 0;
    } else {
      var s := Step(font, c, text[pos], x);
      var rest := Walk(font, text, maxW, pos + 1, s.0, s.2 + GetHAdv(font, Some(s.1)), y, lw);
      var j' := WalkVisits(font, text, maxW, pos + 1, s.0, s.2 + GetHAdv(font, Some(s.1)), y, lw, k);
      assert Walk(font, text, maxW, pos, c, x, y, lw) == [Visit(Some(s.1), s.2, y, pos, lw)] + rest;
      j := j' + 1;
    }
  }

  /** `ThroughText` calls its visitor at most once per code point, in
      order, with the glyph drawn for it, and at least once for every code
      point that is not white space (white space ending a line may be
      consumed by the break without a call); last it calls with no glyph
      and the number of code points consumed. */
  lemma ThroughTextCalls(font: Font, text: seq<int>, align: Align, maxW: real)
    requires Usable(font) && WidthsFit(font, text, maxW)
    ensures var r := Layout(font, text, align, maxW);
      |r| >= 1 && r[|r| - 1].glyph.None? && r[|r| - 1].index == |text|
    ensures var r := Layout(font, text, align, maxW);
      forall k :: 0 <= k < |r| - 1 ==> r[k].index < |text| && r[k].glyph == Some(Lookup(font, text[r[k].index]).1)
    ensures var r := Layout(font, text, align, maxW);
      forall j, k :: 0 <= j < k < |r| ==> r[j].index < r[k].index
    ensures var r := Layout(font, text, align, maxW);
      forall k :: 0 <= k < |text| && !IsSpaceCode(text[k]) ==> exists j :: 0 <= j < |r| - 1 && r[j].index == k
  {
    var vs := Visits(font, text, maxW);
    WalkIndices(font, text, maxW, 0, 0, 0.0, 0.0, LineWidth(font, text, 0, maxW));
    PlaceEach(vs, align);
    var r := Layout(font, text, align, maxW);
    forall k | 0 <= k < |text| && !IsSpaceCode(text[k])
      ensures exists j :: 0 <= j < |r| - 1 && r[j].index == k
    {
      var j := WalkVisits(font, text, maxW, 0, 0, 0.0, 0.0, LineWidth(font, text, 0, maxW), k);
      assert r[j].index == vs[j].index;
    }
  }

  /** Alignment only moves calls along x, by the same amount for every call
      on one line: the distance between two calls on a line does not depend
      on the alignment.  Each break puts the pen back at the line start and
      moves down by at least the line spacing. */
  lemma AlignmentKeepsLines(font: Font, text: seq<int>, align: Align, maxW: real, k: nat)
    requires Usable(font) && WidthsFit(font, text, maxW) && GetLineSpacing(font) > 0.0
    requires 0 < k < |Layout(font, text, align, maxW)|
    ensures var r, l := Layout(font, text, align, maxW), Layout(font, text, Left, maxW);
      |r| == |l| && r[k].y == l[k].y && r[k].index == l[k].index && r[k].glyph == l[k].glyph
    ensures var r, l := Layout(font, text, align, maxW), Layout(font, text, Left, maxW);
      r[k].y == r[k - 1].y ==> r[k].x - r[k - 1].x == l[k].x - l[k - 1].x
    ensures var l := Layout(font, text, Left, maxW);
      l[k].y != l[k - 1].y ==> l[k].x == 0.0 && l[k].y >= l[k - 1].y + GetLineSpacing(font)
  {
    var vs := Visits(font, text, maxW);
    WalkLines(font, text, maxW, 0, 0, 0.0, 0.0, LineWidth(font, text, 0, maxW));
    PlaceEach(vs, align);
    PlaceEach(vs, Left);
  }
}
