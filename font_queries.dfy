/** The consumers of `ThroughText` in src/font.cpp: painting, selection
    rectangles, hit-testing, glyph coordinates and text dimensions.  Each
    takes the visitor calls of the walk in order and stops where its visitor
    would return false. */
module FontQueries {
  import opened Wrappers
  import opened FontData
  import opened FontLayout

  /** The box a visitor call covers: from the glyph's origin-corrected
      position, one advance wide and one line spacing tall. */
  datatype Box = Box(x1: real, y1: real, x2: real, y2: real)

  function GlyphBox(font: Font, p: Placement): (b: Box)
    ensures b.y2 - b.y1 == GetLineSpacing(font)
    ensures b.x2 - b.x1 == GetHAdv(font, p.glyph)
  {
    var o := GetGlyphOrigin(font, p.glyph);
    Box(p.x - o.0, p.y - o.1, p.x - o.0 + GetHAdv(font, p.glyph), p.y - o.1 + GetLineSpacing(font))
  }

  // ---------------------------------------------------------------------
  // glRenderText

  /** A textured glyph drawn with its corner at (x, y). */
  datatype Quad = Quad(glyph: Glyph, x: real, y: real)

  predicate Textured(p: Placement)
  {
    p.glyph.Some? && p.glyph.value.tex.Some?
  }

  function QuadOf(font: Font, p: Placement): Quad
    requires p.glyph.Some?
  {
    var b := GlyphBox(font, p);
    Quad(p.glyph.value, b.x1, b.y1)
  }

  /** The quads `glRenderText` draws for a sequence of visitor calls: one
      per call with a textured glyph, in order. */
  function Paint(font: Font, calls: seq<Placement>): seq<Quad>
  {
    if calls == [] then []
    else (if Textured(calls[0]) then [QuadOf(font, calls[0])] else []) + Paint(font, calls[1..])
  }

  /** Painting draws exactly the textured glyphs: each quad is one of them
      at its origin-corrected position, and each of them has its quad. */
  lemma {:induction false} PaintDrawsTexturedGlyphs(font: Font, calls: seq<Placement>)
    ensures forall q :: q in Paint(font, calls) ==> exists k :: 0 <= k < |calls| && Textured(calls[k]) && q == QuadOf(font, calls[k])
    ensures forall k :: 0 <= k < |calls| && Textured(calls[k]) ==> QuadOf(font, calls[k]) in Paint(font, calls)
  {
    if calls != [] {
      PaintDrawsTexturedGlyphs(font, calls[1..]);
      forall q | q in Paint(font, calls)
        ensures exists k :: 0 <= k < |calls| && Textured(calls[k]) && q == QuadOf(font, calls[k])
      {
        if q !in Paint(font, calls[1..]) {
          assert Textured(calls[0]) && q == QuadOf(font, calls[0]);
        } else {
          var j :| 0 <= j < |calls[1..]| && Textured(calls[1..][j]) && q == QuadOf(font, calls[1..][j]);
          assert calls[1..][j] == calls[j + 1];
        }
      }
      forall k | 0 <= k < |calls| && Textured(calls[k])
        ensures QuadOf(font, calls[k]) in Paint(font, calls)
      {
        if k > 0 {
          assert calls[1..][k - 1] == calls[k];
        }
      }
    }
  }

  /** `glRenderText`. */
  method RenderText(font: Font, text: seq<int>, align: Align, maxW: real) returns (quads: seq<Quad>)
    requires Usable(font) && WidthsFit(font, text, maxW)
    ensures quads == Paint(font, Layout(font, text, align, maxW))
  {
    var calls := ThroughText(font, text, align, maxW);
    quads := [];
    var k := 0;
    while k < |calls|
      invariant k <= |calls|
      invariant quads + Paint(font, calls[k..]) == Paint(font, calls)
    {
      assert calls[k..][1..] == calls[k + 1..];
      var p := calls[k];
      if p.glyph.Some? {
        var o := GetGlyphOrigin(font, p.glyph);
        if p.glyph.value.tex.Some? {
          quads := quads + [Quad(p.glyph.value, p.x - o.0, p.y - o.1)];
        }
      }
      k := k + 1;
    }
    assert calls[k..] == [];
  }

  // ---------------------------------------------------------------------
  // glRenderTextAsRects

  /** One selection rectangle, one line tall. */
  datatype Rect = Rect(x1: real, y1: real, x2: real, y2: real)

  /** The visitor's captured `start_x`, `current_y` and `end_x`. */
  datatype RectState = RectState(startX: real, currentY: real, endX: real)

  function Abs(r: real): real
  {
    if r < 0.0 then -r else r
  }

  /** The rectangles drawn from a sequence of visitor calls, with the
      captured values st; calls before `from` are passed over, a new line or
      reaching `to` closes the open rectangle, and reaching `to` stops. */
  function RectsFrom(font: Font, calls: seq<Placement>, from: int, to: int, st: RectState): (r: seq<Rect>)
    ensures forall q :: q in r ==> q.y2 == q.y1 + GetLineSpacing(font)
  {
    if calls == [] then []
    else
      var p := calls[0];
      if p.index < from then RectsFrom(font, calls[1..], from, to, st)
      else
        var b := GlyphBox(font, p);
        var h := GetLineSpacing(font);
        var endRender := p.index >= to;
        var newLine := Abs(b.y1 - st.currentY) >= h;
        var closed := if endRender || newLine then [Rect(st.startX, st.currentY, st.endX, st.currentY + h)] else [];
        var started := if newLine || p.index <= from then RectState(b.x1, b.y1, st.endX) else st;
        if endRender then closed
        else closed + RectsFrom(font, calls[1..], from, to, RectState(started.startX, started.currentY, b.x2))
  }

  /** The rectangles `glRenderTextAsRects` draws for the characters from
      `from` up to `to`; stale stands for the captured variables' values
      before the visitor first sets them. */
  function SelectionRects(font: Font, text: seq<int>, from: int, to: int, align: Align, maxW: real, stale: RectState): (r: seq<Rect>)
    requires Usable(font) && WidthsFit(font, text, maxW)
    ensures from >= to || from < 0 ==> r == []
    ensures forall q :: q in r ==> q.y2 == q.y1 + GetLineSpacing(font)
  {
    if from >= to || from < 0 then [] else RectsFrom(font, Layout(font, text, align, maxW), from, to, stale)
  }

  /** Calls before `from` draw nothing: a selection starting after the
      whole text draws no rectangle. */
  lemma {:induction false} NothingBeforeFrom(font: Font, calls: seq<Placement>, from: int, to: int, st: RectState)
    requires forall k :: 0 <= k < |calls| ==> calls[k].index < from
    ensures RectsFrom(font, calls, from, to, st) == []
  {
    if calls != [] {
      assert forall k :: 0 <= k < |calls[1..]| ==> calls[1..][k] == calls[k + 1];
      NothingBeforeFrom(font, calls[1..], from, to, st);
    }
  }

  lemma SelectionPastTheEnd(font: Font, text: seq<int>, from: int, to: int, align: Align, maxW: real, stale: RectState)
    requires Usable(font) && WidthsFit(font, text, maxW) && from > |text|
    ensures SelectionRects(font, text, from, to, align, maxW, stale) == []
  {
    var calls := Layout(font, text, align, maxW);
    ThroughTextCalls(font, text, align, maxW);
    assert forall k :: 0 <= k < |calls| ==> calls[k].index <= |text| by {
      forall k | 0 <= k < |calls|
        ensures calls[k].index <= |text|
      {
        if k < |calls| - 1 {
          assert calls[k].index < calls[|calls| - 1].index;
        }
      }
    }
    if from < to {
      NothingBeforeFrom(font, calls, from, to, stale);
    }
  }

  /** Calls before `from` change nothing: neither a rectangle nor the
      captured values. */
  lemma {:induction false} SkipBeforeFrom(font: Font, pre: seq<Placement>, rest: seq<Placement>, from: int, to: int, st: RectState)
    requires forall k :: 0 <= k < |pre| ==> pre[k].index < from
    ensures RectsFrom(font, pre + rest, from, to, st) == RectsFrom(font, rest, from, to, st)
    decreases |pre|
  {
    if pre != [] {
      var all := pre + rest;
      assert all[0] == pre[0] && all[1..] == pre[1..] + rest;
      SkipBeforeFrom(font, pre[1..], rest, from, to, st);
    } else {
      assert pre + rest == rest;
    }
  }

  /** With a rectangle open, calls strictly between `from` and `to` that
      stay on its line, then a call at or past `to`, close exactly that
      rectangle, reaching to the right edge of the last call before `to`. */
  lemma {:induction false} OneLineRect(font: Font, mid: seq<Placement>, pe: Placement, post: seq<Placement>, from: int, to: int, st: RectState)
    requires from < to <= pe.index
    requires forall k :: 0 <= k < |mid| ==>
      from < mid[k].index < to && Abs(GlyphBox(font, mid[k]).y1 - st.currentY) < GetLineSpacing(font)
    ensures RectsFrom(font, mid + [pe] + post, from, to, st) ==
      [Rect(st.startX, st.currentY, if mid == [] then st.endX else GlyphBox(font, mid[|mid| - 1]).x2,
            st.currentY + GetLineSpacing(font))]
    decreases |mid|
  {
    var all := mid + [pe] + post;
    if mid == [] {
      assert all[0] == pe;
    } else {
      assert all[0] == mid[0] && all[1..] == mid[1..] + [pe] + post;
      var b := GlyphBox(font, mid[0]);
      OneLineRect(font, mid[1..], pe, post, from, to, RectState(st.startX, st.currentY, b.x2));
    }
  }

  /** A selection on one line: the call at `from`, then calls before `to`
      on its line, then a call at or past `to`.  Exactly one rectangle is
      drawn for it, from the left edge of the glyph at `from` to the right
      edge of the last glyph before `to`, one line tall; before it only the
      rectangle of the stale captured values, when those are not on the
      selection's line. */
  lemma SelectionOnOneLine(font: Font, pre: seq<Placement>, p0: Placement, mid: seq<Placement>, pe: Placement, post: seq<Placement>,
                           from: int, to: int, st: RectState)
    requires from < to <= pe.index && p0.index == from
    requires forall k :: 0 <= k < |pre| ==> pre[k].index < from
    requires forall k :: 0 <= k < |mid| ==>
      from < mid[k].index < to && Abs(GlyphBox(font, mid[k]).y1 - GlyphBox(font, p0).y1) < GetLineSpacing(font)
    ensures var b, h := GlyphBox(font, p0), GetLineSpacing(font);
      RectsFrom(font, pre + [p0] + mid + [pe] + post, from, to, st) ==
        (if Abs(b.y1 - st.currentY) >= h then [Rect(st.startX, st.currentY, st.endX, st.currentY + h)] else []) +
        [Rect(b.x1, b.y1, if mid == [] then b.x2 else GlyphBox(font, mid[|mid| - 1]).x2, b.y1 + h)]
  {
    var rest := mid + [pe] + post;
    assert pre + [p0] + mid + [pe] + post == pre + ([p0] + rest);
    SkipBeforeFrom(font, pre, [p0] + rest, from, to, st);
    assert ([p0] + rest)[0] == p0 && ([p0] + rest)[1..] == rest;
    var b := GlyphBox(font, p0);
    OneLineRect(font, mid, pe, post, from, to, RectState(b.x1, b.y1, b.x2));
  }

  /** `SelectionOnOneLine` for calls picked out by the position i of the
      call at `from` and the position j of the first call at or past `to`. */
  lemma OneLineCalls(font: Font, r: seq<Placement>, from: int, to: int, st: RectState, i: nat, j: nat)
    requires from < to && i < j < |r| && r[i].index == from && r[j].index >= to
    requires forall k :: 0 <= k < i ==> r[k].index < from
    requires forall k :: i < k < j ==>
      from < r[k].index < to && Abs(GlyphBox(font, r[k]).y1 - GlyphBox(font, r[i]).y1) < GetLineSpacing(font)
    ensures var b, h := GlyphBox(font, r[i]), GetLineSpacing(font);
      RectsFrom(font, r, from, to, st) ==
        (if Abs(b.y1 - st.currentY) >= h then [Rect(st.startX, st.currentY, st.endX, st.currentY + h)] else []) +
        [Rect(b.x1, b.y1, if j == i + 1 then b.x2 else GlyphBox(font, r[j - 1]).x2, b.y1 + h)]
  {
    var pre, mid, post := r[..i], r[i + 1..j], r[j + 1..];
    assert r == pre + [r[i]] + mid + [r[j]] + post;
    assert forall k :: 0 <= k < |pre| ==> pre[k].index < from by {
      forall k | 0 <= k < |pre| ensures pre[k].index < from {
        assert pre[k] == r[k];
      }
    }
    assert forall k :: 0 <= k < |mid| ==>
      from < mid[k].index < to && Abs(GlyphBox(font, mid[k]).y1 - GlyphBox(font, r[i]).y1) < GetLineSpacing(font) by {
      forall k | 0 <= k < |mid|
        ensures from < mid[k].index < to && Abs(GlyphBox(font, mid[k]).y1 - GlyphBox(font, r[i]).y1) < GetLineSpacing(font)
      {
        assert mid[k] == r[i + 1 + k];
      }
    }
    SelectionOnOneLine(font, pre, r[i], mid, r[j], post, from, to, st);
  }

  /** The same for the laid-out text: when the calls from the one at `from`
      (the i-th) up to the first at or past `to` (the j-th) stay on one
      line, the selection is that line's single rectangle. */
  lemma SelectionOfOneLine(font: Font, text: seq<int>, from: int, to: int, align: Align, maxW: real, stale: RectState, i: nat, j: nat)
    requires Usable(font) && WidthsFit(font, text, maxW) && 0 <= from < to
    requires i < j < |Layout(font, text, align, maxW)|
    requires Layout(font, text, align, maxW)[i].index == from && Layout(font, text, align, maxW)[j].index >= to
    requires forall k :: i < k < j ==>
      Layout(font, text, align, maxW)[k].index < to &&
      Abs(GlyphBox(font, Layout(font, text, align, maxW)[k]).y1 - GlyphBox(font, Layout(font, text, align, maxW)[i]).y1) < GetLineSpacing(font)
    ensures var r := Layout(font, text, align, maxW);
      var b, h := GlyphBox(font, r[i]), GetLineSpacing(font);
      SelectionRects(font, text, from, to, align, maxW, stale) ==
        (if Abs(b.y1 - stale.currentY) >= h then [Rect(stale.startX, stale.currentY, stale.endX, stale.currentY + h)] else []) +
        [Rect(b.x1, b.y1, if j == i + 1 then b.x2 else GlyphBox(font, r[j - 1]).x2, b.y1 + h)]
  {
    var r := Layout(font, text, align, maxW);
    assert (forall k :: 0 <= k < i ==> r[k].index < from) && (forall k :: i < k < j ==> from < r[k].index) by {
      ThroughTextCalls(font, text, align, maxW);
    }
    OneLineCalls(font, r, from, to, stale, i, j);
  }

  /** `glRenderTextAsRects`. */
  method RenderTextAsRects(font: Font, text: seq<int>, from: int, to: int, align: Align, maxW: real, stale: RectState)
    returns (rects: seq<Rect>)
    requires Usable(font) && WidthsFit(font, text, maxW)
    ensures rects == SelectionRects(font, text, from, to, align, maxW, stale)
  {
    if from >= to || from < 0 {
      return [];
    }
    var calls := ThroughText(font, text, align, maxW);
    var startX, currentY, endX := stale.startX, stale.currentY, stale.endX;
    rects := [];
    var k := 0;
    while k < |calls|
      invariant k <= |calls|
      invariant rects + RectsFrom(font, calls[k..], from, to, RectState(startX, currentY, endX)) == RectsFrom(font, calls, from, to, stale)
    {
      assert calls[k..][1..] == calls[k + 1..];
      assert calls[k..] == [calls[k]] + calls[k + 1..];
      var more := RectStep(font, calls[k], from, to, startX, currentY, endX);
      rects := rects + more.0;
      if more.1.None? {
        assert calls[k..] == [calls[k]] + calls[k + 1..];
        return;
      }
      startX, currentY, endX := more.1.value.startX, more.1.value.currentY, more.1.value.endX;
      k := k + 1;
    }
    assert calls[k..] == [];
  }

  /** One call of the visitor of `glRenderTextAsRects`: the rectangle it
      draws, if any, and the captured values after it (None when it stops
      the walk). */
  method RectStep(font: Font, p: Placement, from: int, to: int, startX: real, currentY: real, endX: real)
    returns (r: (seq<Rect>, Option<RectState>))
    ensures r.1.None? ==> forall rest: seq<Placement> ::
      RectsFrom(font, [p] + rest, from, to, RectState(startX, currentY, endX)) == r.0
    ensures r.1.Some? ==> forall rest: seq<Placement> ::
      RectsFrom(font, [p] + rest, from, to, RectState(startX, currentY, endX)) == r.0 + RectsFrom(font, rest, from, to, r.1.value)
  {
    if p.index < from {
      r := ([], Some(RectState(startX, currentY, endX)));
      forall rest: seq<Placement>
        ensures RectsFrom(font, [p] + rest, from, to, RectState(startX, currentY, endX)) == r.0 + RectsFrom(font, rest, from, to, r.1.value)
      {
        assert ([p] + rest)[1..] == rest;
      }
      return;
    }
    var o := GetGlyphOrigin(font, p.glyph);
    var w := GetHAdv(font, p.glyph);
    var h := GetLineSpacing(font);
    var endRender := p.index >= to;
    var firstGlyph := p.index <= from;
    var newLine := Abs((p.y - o.1) - currentY) >= h;
    var drawn := [];
    if endRender || newLine {
      drawn := [Rect(startX, currentY, endX, currentY + h)];
    }
    var sx, cy := startX, currentY;
    if newLine || firstGlyph {
      sx, cy := p.x - o.0, p.y - o.1;
    }
    if endRender {
      r := (drawn, None);
      forall rest: seq<Placement>
        ensures RectsFrom(font, [p] + rest, from, to, RectState(startX, currentY, endX)) == r.0
      {
        assert ([p] + rest)[0] == p;
      }
      return;
    }
    r := (drawn, Some(RectState(sx, cy, p.x - o.0 + w)));
    forall rest: seq<Placement>
      ensures RectsFrom(font, [p] + rest, from, to, RectState(startX, currentY, endX)) == r.0 + RectsFrom(font, rest, from, to, r.1.value)
    {
      assert ([p] + rest)[1..] == rest;
    }
  }

  // ---------------------------------------------------------------------
  // WhichGlyphAt

  /** The point lies strictly between the top and the bottom of the box. */
  predicate OnRow(b: Box, py: real)
  {
    b.y1 < py < b.y2
  }

  /** The point is inside the box (left and top edge included, bottom and
      right edge excluded; the top edge counts as outside). */
  predicate Inside(b: Box, px: real, py: real)
  {
    OnRow(b, py) && b.x1 <= px < b.x2
  }

  predicate LeftOf(b: Box, px: real, py: real)
  {
    OnRow(b, py) && px < b.x1
  }

  predicate RightOf(b: Box, px: real, py: real)
  {
    OnRow(b, py) && px > b.x2
  }

  /** The visitor's captured `pos`, `leftmost_pos` and `rightmost_pos`; a
      negative value means unset. */
  datatype Hit = Hit(pos: int, leftmost: int, rightmost: int)

  /** The captured indices once the walk over calls stops: it stops at the
      first call whose box begins below the point, and after any call off
      the point's row once an exact hit is known. */
  function HitScan(font: Font, calls: seq<Placement>, px: real, py: real, st: Hit): Hit
  {
    if calls == [] then st
    else
      var b := GlyphBox(font, calls[0]);
      var i := calls[0].index;
      if py < b.y1 then st
      else if OnRow(b, py) && b.x1 <= px < b.x2 then HitScan(font, calls[1..], px, py, st.(pos := i))
      else if OnRow(b, py) && px < b.x1 && st.leftmost < 0 then HitScan(font, calls[1..], px, py, st.(leftmost := i))
      else if OnRow(b, py) && px > b.x2 && st.pos < 0 then HitScan(font, calls[1..], px, py, st.(rightmost := i))
      else if st.pos < 0 then HitScan(font, calls[1..], px, py, st)
      else st
  }

  /** The answer: the exact hit, else the glyph right of the point on its
      row, else the last glyph left of it, else -1. */
  function Choose(h: Hit): int
  {
    if h.pos < 0 && h.leftmost >= 0 then h.leftmost
    else if h.pos < 0 && h.rightmost >= 0 then h.rightmost
    else h.pos
  }

  /** The index of the character whose box holds (px, py), or of a
      character on the point's row, or -1. */
  function GlyphAt(font: Font, text: seq<int>, px: real, py: real, align: Align, maxW: real): int
    requires Usable(font) && WidthsFit(font, text, maxW)
  {
    Choose(HitScan(font, Layout(font, text, align, maxW), px, py, Hit(-1, -1, -1)))
  }

  /** Every index the scan records belongs to a call whose box stands in
      the recorded relation to the point. */
  lemma {:induction false} HitScanRecords(font: Font, calls: seq<Placement>, px: real, py: real, st: Hit)
    ensures var r := HitScan(font, calls, px, py, st);
      r.pos == st.pos || exists k :: 0 <= k < |calls| && calls[k].index == r.pos && Inside(GlyphBox(font, calls[k]), px, py)
    ensures var r := HitScan(font, calls, px, py, st);
      r.leftmost == st.leftmost || exists k :: 0 <= k < |calls| && calls[k].index == r.leftmost && LeftOf(GlyphBox(font, calls[k]), px, py)
    ensures var r := HitScan(font, calls, px, py, st);
      r.rightmost == st.rightmost || exists k :: 0 <= k < |calls| && calls[k].index == r.rightmost && RightOf(GlyphBox(font, calls[k]), px, py)
  {
    if calls != [] {
      var rest := calls[1..];
      var b := GlyphBox(font, calls[0]);
      var i := calls[0].index;
      forall st': Hit
        ensures var r := HitScan(font, rest, px, py, st');
          r.pos == st'.pos || exists k :: 0 <= k < |calls| && calls[k].index == r.pos && Inside(GlyphBox(font, calls[k]), px, py)
        ensures var r := HitScan(font, rest, px, py, st');
          r.leftmost == st'.leftmost || exists k :: 0 <= k < |calls| && calls[k].index == r.leftmost && LeftOf(GlyphBox(font, calls[k]), px, py)
        ensures var r := HitScan(font, rest, px, py, st');
          r.rightmost == st'.rightmost || exists k :: 0 <= k < |calls| && calls[k].index == r.rightmost && RightOf(GlyphBox(font, calls[k]), px, py)
      {
        HitScanRecords(font, rest, px, py, st');
        var r := HitScan(font, rest, px, py, st');
        if r.pos != st'.pos {
          var k :| 0 <= k < |rest| && rest[k].index == r.pos && Inside(GlyphBox(font, rest[k]), px, py);
          assert rest[k] == calls[k + 1];
        }
        if r.leftmost != st'.leftmost {
          var k :| 0 <= k < |rest| && rest[k].index == r.leftmost && LeftOf(GlyphBox(font, rest[k]), px, py);
          assert rest[k] == calls[k + 1];
        }
        if r.rightmost != st'.rightmost {
          var k :| 0 <= k < |rest| && rest[k].index == r.rightmost && RightOf(GlyphBox(font, rest[k]), px, py);
          assert rest[k] == calls[k + 1];
        }
      }
    }
  }

  /** Once the point lies inside some call's box and no earlier call begins
      below the point, the scan records an exact hit. */
  lemma {:induction false} HitScanFindsBox(font: Font, calls: seq<Placement>, px: real, py: real, st: Hit, k: nat)
    requires k < |calls| && Inside(GlyphBox(font, calls[k]), px, py)
    requires forall j :: 0 <= j < k ==> py >= GlyphBox(font, calls[j]).y1
    ensures HitScan(font, calls, px, py, st).pos >= 0
  {
    var b := GlyphBox(font, calls[0]);
    if k == 0 {
      HitScanKeepsPos(font, calls[1..], px, py, st.(pos := calls[0].index));
    } else if st.pos >= 0 && !(OnRow(b, py) && b.x1 <= px < b.x2) && !(OnRow(b, py) && px < b.x1 && st.leftmost < 0) {
    } else {
      var rest := calls[1..];
      assert forall j :: 0 <= j < k - 1 ==> rest[j] == calls[j + 1];
      assert py >= b.y1;
      if OnRow(b, py) && b.x1 <= px < b.x2 {
        HitScanFindsBox(font, rest, px, py, st.(pos := calls[0].index), k - 1);
      } else if OnRow(b, py) && px < b.x1 && st.leftmost < 0 {
        HitScanFindsBox(font, rest, px, py, st.(leftmost := calls[0].index), k - 1);
      } else if OnRow(b, py) && px > b.x2 && st.pos < 0 {
        HitScanFindsBox(font, rest, px, py, st.(rightmost := calls[0].index), k - 1);
      } else {
        HitScanFindsBox(font, rest, px, py, st, k - 1);
      }
    }
  }

  /** A recorded exact hit is never lost. */
  lemma {:induction false} HitScanKeepsPos(font: Font, calls: seq<Placement>, px: real, py: real, st: Hit)
    requires st.pos >= 0
    ensures HitScan(font, calls, px, py, st).pos >= 0
  {
    if calls != [] {
      var b := GlyphBox(font, calls[0]);
      if py < b.y1 {
      } else if OnRow(b, py) && b.x1 <= px < b.x2 {
        HitScanKeepsPos(font, calls[1..], px, py, st.(pos := calls[0].index));
      } else if OnRow(b, py) && px < b.x1 && st.leftmost < 0 {
        HitScanKeepsPos(font, calls[1..], px, py, st.(leftmost := calls[0].index));
      }
    }
  }

  /** The answer is -1 or the index of a call on the point's row; it is the
      index of a call whose box holds the point whenever some call's box
      holds it and no earlier call begins below the point. */
  lemma GlyphAtIsOnRow(font: Font, text: seq<int>, px: real, py: real, align: Align, maxW: real)
    requires Usable(font) && WidthsFit(font, text, maxW)
    ensures var calls, r := Layout(font, text, align, maxW), GlyphAt(font, text, px, py, align, maxW);
      r == -1 || exists k :: 0 <= k < |calls| && calls[k].index == r && OnRow(GlyphBox(font, calls[k]), py)
    ensures var calls, r := Layout(font, text, align, maxW), GlyphAt(font, text, px, py, align, maxW);
      (exists k :: 0 <= k < |calls| && Inside(GlyphBox(font, calls[k]), px, py) && forall j :: 0 <= j < k ==> py >= GlyphBox(font, calls[j]).y1)
      ==> exists k :: 0 <= k < |calls| && calls[k].index == r && Inside(GlyphBox(font, calls[k]), px, py)
  {
    var calls := Layout(font, text, align, maxW);
    HitScanRecords(font, calls, px, py, Hit(-1, -1, -1));
    var h := HitScan(font, calls, px, py, Hit(-1, -1, -1));
    if exists k :: 0 <= k < |calls| && Inside(GlyphBox(font, calls[k]), px, py) && forall j :: 0 <= j < k ==> py >= GlyphBox(font, calls[j]).y1 {
      var k :| 0 <= k < |calls| && Inside(GlyphBox(font, calls[k]), px, py) && forall j :: 0 <= j < k ==> py >= GlyphBox(font, calls[j]).y1;
      HitScanFindsBox(font, calls, px, py, Hit(-1, -1, -1), k);
    }
  }

  /** `WhichGlyphAt`. */
  method WhichGlyphAt(font: Font, text: seq<int>, px: real, py: real, align: Align, maxW: real) returns (r: int)
    requires Usable(font) && WidthsFit(font, text, maxW)
    ensures r == GlyphAt(font, text, px, py, align, maxW)
  {
    var calls := ThroughText(font, text, align, maxW);
    var pos: int, leftmost: int, rightmost: int := -1, -1, -1;
    var k := 0;
    while k < |calls|
      invariant k <= |calls|
      invariant HitScan(font, calls[k..], px, py, Hit(pos, leftmost, rightmost)) == HitScan(font, calls, px, py, Hit(-1, -1, -1))
    {
      assert calls[k..][1..] == calls[k + 1..];
      var o := GetGlyphOrigin(font, calls[k].glyph);
      var adv := GetHAdv(font, calls[k].glyph);
      var x1, y1 := calls[k].x - o.0, calls[k].y - o.1;
      var x2, y2 := x1 + adv, y1 + GetLineSpacing(font);
      var goOn := true;
      if py < y1 {
        goOn := false;
      } else if py > y1 && py < y2 && px >= x1 && px < x2 {
        pos := calls[k].index;
      } else if py > y1 && py < y2 && px < x1 && leftmost < 0 {
        leftmost := calls[k].index;
      } else if py > y1 && py < y2 && px > x2 && pos < 0 {
        rightmost := calls[k].index;
      } else {
        goOn := pos < 0;
      }
      if !goOn {
        break;
      }
      k := k + 1;
    }
    if pos < 0 {
      if leftmost >= 0 {
        return leftmost;
      } else if rightmost >= 0 {
        return rightmost;
      }
    }
    return pos;
  }

  // ---------------------------------------------------------------------
  // CoordsOfGlyph

  /** The origin-corrected position of the first call for character pos,
      or None when the walk has no call for it. */
  function CoordsIn(font: Font, calls: seq<Placement>, pos: int): Option<(real, real)>
  {
    if calls == [] then None
    else if calls[0].index == pos then Some((GlyphBox(font, calls[0]).x1, GlyphBox(font, calls[0]).y1))
    else CoordsIn(font, calls[1..], pos)
  }

  function GlyphCoords(font: Font, text: seq<int>, pos: int, align: Align, maxW: real): Option<(real, real)>
    requires Usable(font) && WidthsFit(font, text, maxW)
  {
    CoordsIn(font, Layout(font, text, align, maxW), pos)
  }

  /** Coordinates exist exactly for the characters the walk visits, and are
      the top-left corner of the first such call's box. */
  lemma {:induction false} CoordsInFinds(font: Font, calls: seq<Placement>, pos: int)
    ensures CoordsIn(font, calls, pos).Some? <==> exists k :: 0 <= k < |calls| && calls[k].index == pos
    ensures CoordsIn(font, calls, pos).Some? ==>
      exists k :: 0 <= k < |calls| && calls[k].index == pos && (forall j :: 0 <= j < k ==> calls[j].index != pos) &&
        CoordsIn(font, calls, pos).value == (GlyphBox(font, calls[k]).x1, GlyphBox(font, calls[k]).y1)
  {
    if calls != [] {
      var rest := calls[1..];
      CoordsInFinds(font, rest, pos);
      if calls[0].index != pos {
        if exists k :: 0 <= k < |calls| && calls[k].index == pos {
          var k :| 0 <= k < |calls| && calls[k].index == pos;
          assert rest[k - 1] == calls[k];
        }
        if CoordsIn(font, rest, pos).Some? {
          var k :| 0 <= k < |rest| && rest[k].index == pos && (forall j :: 0 <= j < k ==> rest[j].index != pos) &&
            CoordsIn(font, rest, pos).value == (GlyphBox(font, rest[k]).x1, GlyphBox(font, rest[k]).y1);
          assert forall j :: 1 <= j < k + 1 ==> calls[j] == rest[j - 1];
          assert calls[k + 1] == rest[k];
        }
      }
    }
  }

  /** The end of the text always has coordinates (where a caret after the
      last character goes), and a position outside the text never has. */
  lemma EndOfTextHasCoords(font: Font, text: seq<int>, align: Align, maxW: real, pos: int)
    requires Usable(font) && WidthsFit(font, text, maxW)
    ensures GlyphCoords(font, text, |text|, align, maxW).Some?
    ensures pos < 0 || pos > |text| ==> GlyphCoords(font, text, pos, align, maxW).None?
  {
    var calls := Layout(font, text, align, maxW);
    ThroughTextCalls(font, text, align, maxW);
    CoordsInFinds(font, calls, |text|);
    CoordsInFinds(font, calls, pos);
    if pos > |text| {
      forall k | 0 <= k < |calls|
        ensures calls[k].index != pos
      {
        if k < |calls| - 1 {
          assert calls[k].index < calls[|calls| - 1].index;
        }
      }
    }
  }

  /** The hit test does not invert this: the coordinates lie on the top
      edge of the call's box, which the hit test counts as outside. */
  lemma CoordsOnTopEdge(font: Font, text: seq<int>, align: Align, maxW: real, pos: int)
    requires Usable(font) && WidthsFit(font, text, maxW)
    requires GlyphCoords(font, text, pos, align, maxW).Some?
    ensures var calls, xy := Layout(font, text, align, maxW), GlyphCoords(font, text, pos, align, maxW).value;
      exists k :: 0 <= k < |calls| && calls[k].index == pos && !Inside(GlyphBox(font, calls[k]), xy.0, xy.1)
  {
    CoordsInFinds(font, Layout(font, text, align, maxW), pos);
  }

  /** `CoordsOfGlyph`; out is the caller's (outX, outY), left as it was
      when no call is for character pos. */
  method CoordsOfGlyph(font: Font, text: seq<int>, pos: int, align: Align, maxW: real, out: (real, real))
    returns (r: (real, real))
    requires Usable(font) && WidthsFit(font, text, maxW)
    ensures r == match GlyphCoords(font, text, pos, align, maxW) case Some(xy) => xy case None => out
  {
    var calls := ThroughText(font, text, align, maxW);
    var k := 0;
    while k < |calls|
      invariant k <= |calls|
      invariant CoordsIn(font, calls[k..], pos) == CoordsIn(font, calls, pos)
    {
      assert calls[k..][1..] == calls[k + 1..];
      if calls[k].index == pos {
        var o := GetGlyphOrigin(font, calls[k].glyph);
        return (calls[k].x - o.0, calls[k].y - o.1);
      }
      k := k + 1;
    }
    assert calls[k..] == [];
    return out;
  }

  // ---------------------------------------------------------------------
  // DimensionsOfText

  /** The starting bounds: minima far up, maxima far down, so that any
      call's box overrules them. */
  const Far: real := 1000000000000000.0

  /** The bounds b grown to hold every call's box. */
  function Extend(font: Font, calls: seq<Placement>, b: Box): Box
  {
    if calls == [] then b
    else
      var g := GlyphBox(font, calls[0]);
      Extend(font, calls[1..], Box(Min(g.x1, b.x1), Min(g.y1, b.y1), Max(g.x2, b.x2), Max(g.y2, b.y2)))
  }

  function Min(a: real, b: real): real
  {
    if a < b then a else b
  }

  function Max(a: real, b: real): real
  {
    if a < b then b else a
  }

  /** The bounding box of the laid-out text: all zero for a font without
      glyphs. */
  function Dimensions(font: Font, text: seq<int>, align: Align, maxW: real): Box
    requires font.glyphs != map[] ==> Usable(font) && WidthsFit(font, text, maxW)
  {
    if font.glyphs == map[] then Box(0.0, 0.0, 0.0, 0.0)
    else Extend(font, Layout(font, text, align, maxW), Box(Far, Far, -Far, -Far))
  }

  /** Bounds holds every box in calls. */
  predicate Holds(b: Box, font: Font, calls: seq<Placement>)
  {
    forall k :: 0 <= k < |calls| ==>
      b.x1 <= GlyphBox(font, calls[k]).x1 && b.y1 <= GlyphBox(font, calls[k]).y1 &&
      b.x2 >= GlyphBox(font, calls[k]).x2 && b.y2 >= GlyphBox(font, calls[k]).y2
  }

  /** Each side of the bounds is the start value's side or the matching
      side of some call's box. */
  predicate Attained(r: Box, b: Box, font: Font, calls: seq<Placement>)
  {
    (r.x1 == b.x1 || exists k :: 0 <= k < |calls| && r.x1 == GlyphBox(font, calls[k]).x1) &&
    (r.y1 == b.y1 || exists k :: 0 <= k < |calls| && r.y1 == GlyphBox(font, calls[k]).y1) &&
    (r.x2 == b.x2 || exists k :: 0 <= k < |calls| && r.x2 == GlyphBox(font, calls[k]).x2) &&
    (r.y2 == b.y2 || exists k :: 0 <= k < |calls| && r.y2 == GlyphBox(font, calls[k]).y2)
  }

  /** The grown bounds hold the start bounds and every box, and each of
      their sides is attained. */
  lemma {:induction false} ExtendBounds(font: Font, calls: seq<Placement>, b: Box)
    ensures var r := Extend(font, calls, b);
      r.x1 <= b.x1 && r.y1 <= b.y1 && r.x2 >= b.x2 && r.y2 >= b.y2
    ensures Holds(Extend(font, calls, b), font, calls)
    ensures Attained(Extend(font, calls, b), b, font, calls)
  {
    if calls != [] {
      var rest := calls[1..];
      var g := GlyphBox(font, calls[0]);
      var b' := Box(Min(g.x1, b.x1), Min(g.y1, b.y1), Max(g.x2, b.x2), Max(g.y2, b.y2));
      var r := Extend(font, rest, b');
      ExtendBounds(font, rest, b');
      forall k | 1 <= k < |calls|
        ensures calls[k] == rest[k - 1]
      {
      }
      assert Attained(r, b, font, calls) by {
        if r.x1 != b.x1 && r.x1 != g.x1 && r.x1 != b'.x1 {
          var k :| 0 <= k < |rest| && r.x1 == GlyphBox(font, rest[k]).x1;
          assert calls[k + 1] == rest[k];
        }
        if r.y1 != b.y1 && r.y1 != g.y1 && r.y1 != b'.y1 {
          var k :| 0 <= k < |rest| && r.y1 == GlyphBox(font, rest[k]).y1;
          assert calls[k + 1] == rest[k];
        }
        if r.x2 != b.x2 && r.x2 != g.x2 && r.x2 != b'.x2 {
          var k :| 0 <= k < |rest| && r.x2 == GlyphBox(font, rest[k]).x2;
          assert calls[k + 1] == rest[k];
        }
        if r.y2 != b.y2 && r.y2 != g.y2 && r.y2 != b'.y2 {
          var k :| 0 <= k < |rest| && r.y2 == GlyphBox(font, rest[k]).y2;
          assert calls[k + 1] == rest[k];
        }
      }
    }
  }

  /** The dimensions hold every call's box (the end-of-text call included),
      and each side is one of those boxes' sides unless the text lies
      beyond the starting bounds. */
  lemma DimensionsHoldText(font: Font, text: seq<int>, align: Align, maxW: real)
    requires Usable(font) && WidthsFit(font, text, maxW)
    ensures Holds(Dimensions(font, text, align, maxW), font, Layout(font, text, align, maxW))
    ensures Attained(Dimensions(font, text, align, maxW), Box(Far, Far, -Far, -Far), font, Layout(font, text, align, maxW))
  {
    ExtendBounds(font, Layout(font, text, align, maxW), Box(Far, Far, -Far, -Far));
  }

  /** `DimensionsOfText`. */
  method DimensionsOfText(font: Font, text: seq<int>, align: Align, maxW: real) returns (r: Box)
    requires font.glyphs != map[] ==> Usable(font) && WidthsFit(font, text, maxW)
    ensures r == Dimensions(font, text, align, maxW)
  {
    if |font.glyphs| <= 0 {
      return Box(0.0, 0.0, 0.0, 0.0);
    }
    var calls := ThroughText(font, text, align, maxW);
    var minX, minY, maxX, maxY := Far, Far, -Far, -Far;
    var k := 0;
    while k < |calls|
      invariant k <= |calls|
      invariant Extend(font, calls[k..], Box(minX, minY, maxX, maxY)) == Extend(font, calls, Box(Far, Far, -Far, -Far))
    {
      assert calls[k..][1..] == calls[k + 1..];
      var o := GetGlyphOrigin(font, calls[k].glyph);
      var adv := GetHAdv(font, calls[k].glyph);
      var x1, y1 := calls[k].x - o.0, calls[k].y - o.1;
      var x2, y2 := x1 + adv, y1 + GetLineSpacing(font);
      minX, minY := Min(x1, minX), Min(y1, minY);
      maxX, maxY := Max(x2, maxX), Max(y2, maxY);
      k := k + 1;
    }
    assert calls[k..] == [];
    return Box(minX, minY, maxX, maxY);
  }
}
