/** Loading an SVG font (chapter 20 of SVG 1.1) in src/font.cpp:
    `ParseSvgFontHeader` and `ParseSVGFont`.  The XML document is an
    attributed element tree; the loader reads the first `font` element in
    the first `defs` element of the `svg` root. */
module FontLoader {
  import opened Wrappers
  import opened Chars
  import opened UnicodeRef
  import opened FontPath
  import opened FontData

  /** An XML element: its name, its attributes and its child nodes in
      document order. */
  datatype Element = Element(name: string, attrs: map<string, string>, children: seq<Element>)

  /** Why loading stops; each is fatal. */
  datatype LoadError =
    | NoRootElement
    | NotSvg(name: string)
    | NoDefs
    | NoFont
    | NoFontFace
    | NoUnitsPerEm
    | NoBBox
    | BadBBox(text: string)
    | BadUnicode(text: string)
    | DuplicateUnicode(cp: int)
    | BadGlyphPath(error: PathError)
    | NoKernValue
    | NoFirstGroup
    | NoSecondGroup
    | UndefinedGlyphName(name: string)
    | BadKernUnicode(text: string)

  /** Index of the first element at or after i whose name matches
      (case-insensitively). */
  function FirstNamedFrom(cs: seq<Element>, name: string, i: nat): (r: Option<nat>)
    requires i <= |cs|
    ensures r.Some? ==> i <= r.value < |cs| && SameName(cs[r.value].name, name)
    ensures r.Some? ==> forall k :: i <= k < r.value ==> !SameName(cs[k].name, name)
    ensures r.None? ==> forall k :: i <= k < |cs| ==> !SameName(cs[k].name, name)
    decreases |cs| - i
  {
    if i == |cs| then None
    else if SameName(cs[i].name, name) then Some(i)
    else FirstNamedFrom(cs, name, i + 1)
  }

  function FirstNamed(cs: seq<Element>, name: string): Option<nat>
  {
    FirstNamedFrom(cs, name, 0)
  }

  /** The child loops that stop at the first element with a given name. */
  method FindChild(cs: seq<Element>, name: string) returns (r: Option<nat>)
    ensures r == FirstNamed(cs, name)
  {
    var k := 0;
    while k < |cs|
      invariant k <= |cs|
      invariant FirstNamedFrom(cs, name, k) == FirstNamed(cs, name)
    {
      if SameName(cs[k].name, name) {
        return Some(k);
      }
      k := k + 1;
    }
    return None;
  }

  /** The header values: the scale factor and the scaled font metrics. */
  datatype Header = Header(multiply: real, bbox: BBox, horizAdvX: real, horizOriginX: real, horizOriginY: real)

  /** `float(size) / units_per_em`; a zero units-per-em is taken as scale 0. */
  function Scale(size: int, unitsPerEm: int): real
  {
    if unitsPerEm == 0 then 0.0 else size as real / unitsPerEm as real
  }

  /** An integer metric attribute times the scale, or `absent` without it. */
  function Metric(attrs: map<string, string>, key: string, multiply: real, absent: real): real
  {
    if key in attrs then Scaled(attrs[key], multiply) else absent
  }

  /** `atoi (text) * multiply`. */
  function Scaled(text: string, multiply: real): real
  {
    Atoi(text) as real * multiply
  }

  /** What `ParseSvgFontHeader` reads from the font element fnt. */
  function HeaderOf(fnt: Element, size: int): (r: Result<Header, LoadError>)
    ensures r.Failure? <==>
      var i := FirstNamed(fnt.children, "font-face");
      i.None? ||
      var face := fnt.children[i.value];
      "units-per-em" !in face.attrs || "bbox" !in face.attrs || PathFloats(4, face.attrs["bbox"], 0).None?
  {
    match FirstNamed(fnt.children, "font-face")
    case None => Failure(NoFontFace)
    case Some(i) =>
      var face := fnt.children[i];
      if "units-per-em" !in face.attrs then Failure(NoUnitsPerEm)
      else
        var m := Scale(size, Atoi(face.attrs["units-per-em"]));
        if "bbox" !in face.attrs then Failure(NoBBox)
        else
          var f := PathFloats(4, face.attrs["bbox"], 0);
          if f.None? then Failure(BadBBox(face.attrs["bbox"]))
          else
            Success(Header(m, ScaledBox(f.value.0, m),
                           Metric(fnt.attrs, "horiz-adv-x", m, 0.0),
                           Metric(fnt.attrs, "horiz-origin-x", m, 0.0),
                           Metric(fnt.attrs, "horiz-origin-y", m, 0.0)))
  }

  /** The em box (left, bottom, right, top) in pixels. */
  function ScaledBox(f: seq<real>, m: real): BBox
    requires |f| == 4
  {
    BBox(f[0] * m, f[1] * m, f[2] * m, f[3] * m)
  }

  /** The header's box is the file's `bbox` scaled, its scale is the pixel
      size over the units per em, and metrics missing from the font element
      are 0. */
  lemma HeaderScaling(fnt: Element, size: int)
    requires HeaderOf(fnt, size).Success?
    ensures var h := HeaderOf(fnt, size).value;
      var face := fnt.children[FirstNamed(fnt.children, "font-face").value];
      h.multiply == Scale(size, Atoi(face.attrs["units-per-em"])) &&
      h.bbox == ScaledBox(PathFloats(4, face.attrs["bbox"], 0).value.0, h.multiply) &&
      ("horiz-adv-x" !in fnt.attrs ==> h.horizAdvX == 0.0) &&
      ("horiz-origin-x" !in fnt.attrs ==> h.horizOriginX == 0.0) &&
      ("horiz-origin-y" !in fnt.attrs ==> h.horizOriginY == 0.0)
  {
  }

  method ParseSvgFontHeader(fnt: Element, size: int) returns (r: Result<Header, LoadError>)
    ensures r == HeaderOf(fnt, size)
  {
    var i := FindChild(fnt.children, "font-face");
    if i.None? {
      return Failure(NoFontFace);
    }
    var face := fnt.children[i.value];
    if "units-per-em" !in face.attrs {
      return Failure(NoUnitsPerEm);
    }
    var unitsPerEm := Atoi(face.attrs["units-per-em"]);
    var multiply := Scale(size, unitsPerEm);
    if "bbox" !in face.attrs {
      return Failure(NoBBox);
    }
    var f := SVGParsePathFloats(4, face.attrs["bbox"], 0);
    if f.None? {
      return Failure(BadBBox(face.attrs["bbox"]));
    }
    var box := ScaledBox(f.value.0, multiply);
    var adv := Metric(fnt.attrs, "horiz-adv-x", multiply, 0.0);
    var originX := Metric(fnt.attrs, "horiz-origin-x", multiply, 0.0);
    var originY := Metric(fnt.attrs, "horiz-origin-y", multiply, 0.0);
    r := Success(Header(multiply, box, adv, originX, originY));
  }

  /** The loader's tables while it reads glyphs: code point to glyph, and
      glyph name to the code points carrying that name, in file order. */
  datatype Tables = Tables(glyphs: map<int, Glyph>, names: map<string, seq<int>>)

  /** A `glyph` element with a `unicode` attribute: one the loader keeps. */
  predicate IsCodedGlyph(el: Element)
  {
    SameName(el.name, "glyph") && "unicode" in el.attrs
  }

  /** Glyph elements whose path data the interpreter can run. */
  predicate PathReady(el: Element)
  {
    IsCodedGlyph(el) && "d" in el.attrs ==> PathText(el.attrs["d"])
  }

  /** The code point a glyph's `unicode` attribute gives; `unset` stands for
      the uninitialised variable when the numeric reference does not scan. */
  function CodeOf(ref: UnicodeRef, unset: int): int
    requires !ref.Rejected?
  {
    if ref.Code? then ref.cp else unset
  }

  function AddName(names: map<string, seq<int>>, name: string, ch: int): (r: map<string, seq<int>>)
    ensures r.Keys == names.Keys + {name}
    ensures r[name] == (if name in names then names[name] else []) + [ch]
    ensures forall n :: n in names && n != name ==> r[n] == names[n]
  {
    names[name := (if name in names then names[name] else []) + [ch]]
  }

  /** The glyph a coded `glyph` element gives: the outline of its path
      data and that outline's size, or no texture and size 0 without path
      data; each of its own metrics is the attribute's integer times the
      scale, or -1 when the attribute is absent. */
  function MakeGlyph(el: Element, box: BBox, multiply: real): (r: Result<Glyph, PathError>)
    requires "d" in el.attrs ==> PathText(el.attrs["d"])
    ensures r.Failure? <==> "d" in el.attrs && GlyphOutline(el.attrs["d"], box, multiply).Failure?
    ensures r.Success? && "d" !in el.attrs ==> r.value.tex == None && r.value.texW == 0 && r.value.texH == 0
    ensures r.Success? && "d" in el.attrs ==>
      var o := GlyphOutline(el.attrs["d"], box, multiply).value;
      r.value.tex == Some(o) && r.value.texW == o.texW && r.value.texH == o.texH
    ensures r.Success? && "horiz-adv-x" !in el.attrs ==> r.value.horizAdvX == -1.0
    ensures r.Success? && "horiz-origin-x" !in el.attrs ==> r.value.horizOriginX == -1.0
    ensures r.Success? && "horiz-origin-y" !in el.attrs ==> r.value.horizOriginY == -1.0
    ensures r.Success? && "horiz-adv-x" in el.attrs ==> r.value.horizAdvX == Scaled(el.attrs["horiz-adv-x"], multiply)
    ensures r.Success? && "horiz-origin-x" in el.attrs ==> r.value.horizOriginX == Scaled(el.attrs["horiz-origin-x"], multiply)
    ensures r.Success? && "horiz-origin-y" in el.attrs ==> r.value.horizOriginY == Scaled(el.attrs["horiz-origin-y"], multiply)
  {
    var adv := Metric(el.attrs, "horiz-adv-x", multiply, -1.0);
    var ox := Metric(el.attrs, "horiz-origin-x", multiply, -1.0);
    var oy := Metric(el.attrs, "horiz-origin-y", multiply, -1.0);
    if "d" in el.attrs then
      match GlyphOutline(el.attrs["d"], box, multiply)
      case Failure(e) => Failure(e)
      case Success(o) => Success(Glyph(Some(o), o.texW, o.texH, adv, ox, oy))
    else Success(Glyph(None, 0, 0, adv, ox, oy))
  }

  /** The code point a coded glyph element's `unicode` attribute gives. */
  function CodeOfGlyph(el: Element, unset: int): int
    requires IsCodedGlyph(el) && !ParseXMLUnicode(el.attrs["unicode"]).Rejected?
  {
    CodeOf(ParseXMLUnicode(el.attrs["unicode"]), unset)
  }

  /** One pass of the glyph loop over a child of the font element.  Other
      children change nothing; a coded glyph fails on a rejected `unicode`,
      a code point already in the table or path data that does not run, and
      otherwise adds exactly its code point with the glyph it gives. */
  function GlyphStep(t: Tables, el: Element, box: BBox, multiply: real, unset: int): (r: Result<Tables, LoadError>)
    requires PathReady(el)
    ensures !IsCodedGlyph(el) ==> r == Success(t)
    ensures IsCodedGlyph(el) ==>
      (r.Failure? <==> ParseXMLUnicode(el.attrs["unicode"]).Rejected? || CodeOfGlyph(el, unset) in t.glyphs
                       || MakeGlyph(el, box, multiply).Failure?)
    ensures r.Success? && IsCodedGlyph(el) ==>
      MakeGlyph(el, box, multiply).Success? &&
      r.value.glyphs == t.glyphs[CodeOfGlyph(el, unset) := MakeGlyph(el, box, multiply).value]
    ensures r.Success? ==> t.glyphs.Keys <= r.value.glyphs.Keys
    ensures r.Success? ==> forall c :: c in t.glyphs ==> r.value.glyphs[c] == t.glyphs[c]
  {
    if !IsCodedGlyph(el) then Success(t)
    else
      var u := ParseXMLUnicode(el.attrs["unicode"]);
      if u.Rejected? then Failure(BadUnicode(el.attrs["unicode"]))
      else
        var ch := CodeOf(u, unset);
        var names := if "glyph-name" in el.attrs then AddName(t.names, el.attrs["glyph-name"], ch) else t.names;
        if ch in t.glyphs then Failure(DuplicateUnicode(ch))
        else
          match MakeGlyph(el, box, multiply)
          case Failure(e) => Failure(BadGlyphPath(e))
          case Success(g) => Success(Tables(t.glyphs[ch := g], names))
  }

  /** The glyph loop over the font element's children. */
  function GlyphPass(cs: seq<Element>, t: Tables, box: BBox, multiply: real, unset: int): (r: Result<Tables, LoadError>)
    requires forall k :: 0 <= k < |cs| ==> PathReady(cs[k])
    ensures r.Success? ==> t.glyphs.Keys <= r.value.glyphs.Keys
    decreases |cs|
  {
    if cs == [] then Success(t)
    else
      match GlyphStep(t, cs[0], box, multiply, unset)
      case Failure(e) => Failure(e)
      case Success(t') => GlyphPass(cs[1..], t', box, multiply, unset)
  }

  /** Children that are not coded glyphs (other elements, glyphs without a
      `unicode` attribute) leave the glyph loop's outcome unchanged. */
  lemma {:induction false} UncodedGlyphIgnored(a: seq<Element>, el: Element, b: seq<Element>, t: Tables, box: BBox, multiply: real, unset: int)
    requires !IsCodedGlyph(el)
    requires forall k :: 0 <= k < |a| ==> PathReady(a[k])
    requires forall k :: 0 <= k < |b| ==> PathReady(b[k])
    ensures forall k :: 0 <= k < |a + [el] + b| ==> PathReady((a + [el] + b)[k])
    ensures GlyphPass(a + [el] + b, t, box, multiply, unset) == GlyphPass(a + b, t, box, multiply, unset)
    decreases |a|
  {
    var all := a + [el] + b;
    assert forall k :: 0 <= k < |all| ==> PathReady(all[k]) by {
      forall k | 0 <= k < |all| ensures PathReady(all[k]) {
        if k < |a| { assert all[k] == a[k]; } else if k > |a| { assert all[k] == b[k - |a| - 1]; }
      }
    }
    if a == [] {
      assert all[0] == el && all[1..] == b && a + b == b;
      assert GlyphStep(t, el, box, multiply, unset) == Success(t);
    } else {
      assert all[0] == a[0] && (a + b)[0] == a[0];
      assert all[1..] == a[1..] + [el] + b;
      assert (a + b)[1..] == a[1..] + b;
      match GlyphStep(t, a[0], box, multiply, unset)
      case Failure(e) =>
      case Success(t') => UncodedGlyphIgnored(a[1..], el, b, t', box, multiply, unset);
    }
  }

  /** The glyph loop never changes a glyph already in the table. */
  lemma {:induction false} GlyphPassKeepsEntries(cs: seq<Element>, t: Tables, box: BBox, multiply: real, unset: int)
    requires forall j :: 0 <= j < |cs| ==> PathReady(cs[j])
    requires GlyphPass(cs, t, box, multiply, unset).Success?
    ensures forall c :: c in t.glyphs ==> GlyphPass(cs, t, box, multiply, unset).value.glyphs[c] == t.glyphs[c]
    decreases |cs|
  {
    if cs != [] {
      var t' := GlyphStep(t, cs[0], box, multiply, unset).value;
      GlyphPassKeepsEntries(cs[1..], t', box, multiply, unset);
    }
  }

  /** Every coded glyph the loop passes over leaves its code point in the
      table, mapped to the glyph that element gives. */
  lemma {:induction false} GlyphPassKeepsCodes(cs: seq<Element>, t: Tables, box: BBox, multiply: real, unset: int, k: nat)
    requires forall j :: 0 <= j < |cs| ==> PathReady(cs[j])
    requires GlyphPass(cs, t, box, multiply, unset).Success?
    requires k < |cs| && IsCodedGlyph(cs[k])
    ensures !ParseXMLUnicode(cs[k].attrs["unicode"]).Rejected?
    ensures CodeOfGlyph(cs[k], unset) in GlyphPass(cs, t, box, multiply, unset).value.glyphs
    ensures MakeGlyph(cs[k], box, multiply).Success?
    ensures GlyphPass(cs, t, box, multiply, unset).value.glyphs[CodeOfGlyph(cs[k], unset)] == MakeGlyph(cs[k], box, multiply).value
    decreases |cs|
  {
    var t' := GlyphStep(t, cs[0], box, multiply, unset).value;
    if k > 0 {
      assert cs[1..][k - 1] == cs[k];
      GlyphPassKeepsCodes(cs[1..], t', box, multiply, unset, k - 1);
    } else {
      GlyphPassKeepsEntries(cs[1..], t', box, multiply, unset);
    }
  }

  /** Two coded glyphs with the same code point make loading fail (a code
      point already in the table when the loop reaches the second). */
  lemma {:induction false} DuplicateCodeFails(cs: seq<Element>, t: Tables, box: BBox, multiply: real, unset: int, i: nat, j: nat)
    requires forall k :: 0 <= k < |cs| ==> PathReady(cs[k])
    requires i < j < |cs| && IsCodedGlyph(cs[i]) && IsCodedGlyph(cs[j])
    requires ParseXMLUnicode(cs[i].attrs["unicode"]).Code? && ParseXMLUnicode(cs[j].attrs["unicode"]).Code?
    requires ParseXMLUnicode(cs[i].attrs["unicode"]).cp == ParseXMLUnicode(cs[j].attrs["unicode"]).cp
    ensures GlyphPass(cs, t, box, multiply, unset).Failure?
    decreases |cs|
  {
    if GlyphPass(cs, t, box, multiply, unset).Success? {
      var t' := GlyphStep(t, cs[0], box, multiply, unset).value;
      if i > 0 {
        assert cs[1..][i - 1] == cs[i] && cs[1..][j - 1] == cs[j];
        DuplicateCodeFails(cs[1..], t', box, multiply, unset, i - 1, j - 1);
      } else {
        var rest := cs[1..];
        assert rest[j - 1] == cs[j];
        var cp := ParseXMLUnicode(cs[0].attrs["unicode"]).cp;
        assert cp in t'.glyphs;
        SecondCodeFails(rest, t', box, multiply, unset, j - 1, cp);
      }
    }
  }

  /** A coded glyph whose code point is already in the table, or enters it
      before the loop gets there, makes the loop fail. */
  lemma {:induction false} SecondCodeFails(cs: seq<Element>, t: Tables, box: BBox, multiply: real, unset: int, j: nat, cp: int)
    requires forall k :: 0 <= k < |cs| ==> PathReady(cs[k])
    requires j < |cs| && IsCodedGlyph(cs[j]) && ParseXMLUnicode(cs[j].attrs["unicode"]) == Code(cp)
    requires cp in t.glyphs
    ensures GlyphPass(cs, t, box, multiply, unset).Failure?
    decreases |cs|
  {
    if j > 0 && GlyphStep(t, cs[0], box, multiply, unset).Success? {
      assert cs[1..][j - 1] == cs[j];
      SecondCodeFails(cs[1..], GlyphStep(t, cs[0], box, multiply, unset).value, box, multiply, unset, j - 1, cp);
    }
  }

  /** A kerning group's glyph names, each replaced by the code points with
      that name, in order; the first unknown name is an error. */
  function ResolveNames(gs: seq<string>, names: map<string, seq<int>>): (r: Result<seq<int>, LoadError>)
    ensures r.Success? <==> forall k :: 0 <= k < |gs| ==> gs[k] in names
    ensures r.Failure? ==> r.error.UndefinedGlyphName? && r.error.name !in names
    ensures r.Success? ==> forall k, c :: 0 <= k < |gs| && c in names[gs[k]] ==> c in r.value
    ensures r.Success? ==> forall c :: c in r.value ==> exists k :: 0 <= k < |gs| && c in names[gs[k]]
  {
    if gs == [] then Success([])
    else if gs[0] !in names then Failure(UndefinedGlyphName(gs[0]))
    else
      match ResolveNames(gs[1..], names)
      case Failure(e) => Failure(e)
      case Success(rest) =>
        assert forall k :: 1 <= k < |gs| ==> gs[k] == gs[1..][k - 1];
        Success(names[gs[0]] + rest)
  }

  /** A kerning group's unicode references, parsed in order. */
  function ParseRefs(ss: seq<string>, unset: int): (r: Result<seq<int>, LoadError>)
    ensures r.Success? <==> forall k :: 0 <= k < |ss| ==> !ParseXMLUnicode(ss[k]).Rejected?
    ensures r.Failure? ==> r.error.BadKernUnicode? && ParseXMLUnicode(r.error.text).Rejected?
    ensures r.Success? ==> |r.value| == |ss|
    ensures r.Success? ==> forall k :: 0 <= k < |ss| ==> r.value[k] == CodeOf(ParseXMLUnicode(ss[k]), unset)
  {
    if ss == [] then Success([])
    else
      var u := ParseXMLUnicode(ss[0]);
      if u.Rejected? then Failure(BadKernUnicode(ss[0]))
      else
        match ParseRefs(ss[1..], unset)
        case Failure(e) => Failure(e)
        case Success(rest) =>
          assert forall k :: 1 <= k < |ss| ==> ss[k] == ss[1..][k - 1];
          Success([CodeOf(u, unset)] + rest)
  }

  /** One row of the kerning table with k set for every second code point. */
  function SetRow(row: map<int, real>, u2: seq<int>, k: real): (r: map<int, real>)
    ensures r.Keys == row.Keys + set c | c in u2
    ensures forall b :: b in r ==> r[b] == if b in u2 then k else row[b]
    decreases |u2|
  {
    if u2 == [] then row
    else
      assert forall b :: b in u2[1..] ==> b in u2;
      SetRow(row[u2[0] := k], u2[1..], k)
  }

  /** Adding the pairs of one `hkern` element: every first code point
      followed by every second gets k. */
  function AddKernPairs(table: map<int, map<int, real>>, u1: seq<int>, u2: seq<int>, k: real): map<int, map<int, real>>
    decreases |u1|
  {
    if u1 == [] then table
    else
      var row := if u1[0] in table then table[u1[0]] else map[];
      AddKernPairs(table[u1[0] := SetRow(row, u2, k)], u1[1..], u2, k)
  }

  /** After adding an `hkern` element's pairs, a pair (first, second) has k
      exactly when first is in the first group and second in the second;
      every other entry, the reversed pairs included, is as before, and the
      table has a row for every first code point. */
  lemma {:induction false} KernPairsEntries(table: map<int, map<int, real>>, u1: seq<int>, u2: seq<int>, k: real)
    ensures AddKernPairs(table, u1, u2, k).Keys == table.Keys + set c | c in u1
    ensures forall a, b :: Entry(AddKernPairs(table, u1, u2, k), a, b) == if a in u1 && b in u2 then Some(k) else Entry(table, a, b)
    decreases |u1|
  {
    if u1 != [] {
      var row := if u1[0] in table then table[u1[0]] else map[];
      var next := table[u1[0] := SetRow(row, u2, k)];
      KernPairsEntries(next, u1[1..], u2, k);
      assert forall c :: c in u1 <==> c == u1[0] || c in u1[1..];
    }
  }

  /** Kerning is directional: a pair given as (A, V) leaves (V, A) without
      an entry. */
  lemma KernIsDirectional(k: real)
    ensures Entry(AddKernPairs(map[], [65], [86], k), 65, 86) == Some(k)
    ensures Entry(AddKernPairs(map[], [65], [86], k), 86, 65) == None
  {
    KernPairsEntries(map[], [65], [86], k);
  }

  /** A group attribute split at commas; an absent attribute is empty. */
  function Group(attrs: map<string, string>, key: string): seq<string>
  {
    if key in attrs then Split(attrs[key], ',') else []
  }

  /** The two code point groups of an `hkern` element: names first, then
      unicode references, for each side.  A side with neither fails, the
      first side first; then the first unknown name or unreadable reference
      fails. */
  function KernGroups(el: Element, names: map<string, seq<int>>, unset: int): (r: Result<(seq<int>, seq<int>), LoadError>)
    ensures r == Failure(NoFirstGroup) <==> Group(el.attrs, "g1") == [] && Group(el.attrs, "u1") == []
    ensures r == Failure(NoSecondGroup) <==>
      (Group(el.attrs, "g1") != [] || Group(el.attrs, "u1") != []) && Group(el.attrs, "g2") == [] && Group(el.attrs, "u2") == []
    ensures r.Success? <==>
      (Group(el.attrs, "g1") != [] || Group(el.attrs, "u1") != []) && (Group(el.attrs, "g2") != [] || Group(el.attrs, "u2") != []) &&
      ResolveNames(Group(el.attrs, "g1"), names).Success? && ResolveNames(Group(el.attrs, "g2"), names).Success? &&
      ParseRefs(Group(el.attrs, "u1"), unset).Success? && ParseRefs(Group(el.attrs, "u2"), unset).Success?
    ensures r.Success? ==>
      r.value.0 == ResolveNames(Group(el.attrs, "g1"), names).value + ParseRefs(Group(el.attrs, "u1"), unset).value &&
      r.value.1 == ResolveNames(Group(el.attrs, "g2"), names).value + ParseRefs(Group(el.attrs, "u2"), unset).value
  {
    var g1, su1, g2, su2 := Group(el.attrs, "g1"), Group(el.attrs, "u1"), Group(el.attrs, "g2"), Group(el.attrs, "u2");
    if g1 == [] && su1 == [] then Failure(NoFirstGroup)
    else if g2 == [] && su2 == [] then Failure(NoSecondGroup)
    else
      match ResolveNames(g1, names)
      case Failure(e) => Failure(e)
      case Success(n1) =>
        match ResolveNames(g2, names)
        case Failure(e) => Failure(e)
        case Success(n2) =>
          match ParseRefs(su1, unset)
          case Failure(e) => Failure(e)
          case Success(c1) =>
            match ParseRefs(su2, unset)
            case Failure(e) => Failure(e)
            case Success(c2) => Success((n1 + c1, n2 + c2))
  }

  /** One pass of the kerning loop over a child of the font element: an
      `hkern` without `k` fails, one whose groups fail fails as they do, and
      otherwise every pair of its groups gets `k` scaled. */
  function KernStep(table: map<int, map<int, real>>, el: Element, names: map<string, seq<int>>, multiply: real, unset: int)
    : (r: Result<map<int, map<int, real>>, LoadError>)
    ensures SameName(el.name, "hkern") && "k" !in el.attrs ==> r == Failure(NoKernValue)
    ensures !SameName(el.name, "hkern") ==> r == Success(table)
    ensures SameName(el.name, "hkern") && "k" in el.attrs ==>
      (r.Failure? <==> KernGroups(el, names, unset).Failure?) &&
      (r.Failure? ==> r.error == KernGroups(el, names, unset).error)
    ensures SameName(el.name, "hkern") && r.Success? ==>
      "k" in el.attrs && KernGroups(el, names, unset).Success? &&
      r.value == AddKernPairs(table, KernGroups(el, names, unset).value.0, KernGroups(el, names, unset).value.1,
                              Scaled(el.attrs["k"], multiply))
  {
    if !SameName(el.name, "hkern") then Success(table)
    else if "k" !in el.attrs then Failure(NoKernValue)
    else
      var k := Scaled(el.attrs["k"], multiply);
      var groups := KernGroups(el, names, unset);
      if groups.Failure? then Failure(groups.error)
      else Success(AddKernPairs(table, groups.value.0, groups.value.1, k))
  }

  /** What an `hkern` element does to the table: the pair (a, b) gets the
      element's `k` times the scale exactly when a is in its first group and
      b in its second, and every other entry is as before. */
  lemma KernStepEntries(table: map<int, map<int, real>>, el: Element, names: map<string, seq<int>>, multiply: real, unset: int)
    requires SameName(el.name, "hkern") && KernStep(table, el, names, multiply, unset).Success?
    ensures var g := KernGroups(el, names, unset).value;
      forall a, b :: Entry(KernStep(table, el, names, multiply, unset).value, a, b) ==
        if a in g.0 && b in g.1 then Some(Scaled(el.attrs["k"], multiply)) else Entry(table, a, b)
  {
    var g := KernGroups(el, names, unset).value;
    KernPairsEntries(table, g.0, g.1, Scaled(el.attrs["k"], multiply));
  }

  /** Which code points make up a successful `hkern` element's first group:
      those of its `g1` names and those its `u1` references give. */
  lemma KernFirstGroup(el: Element, names: map<string, seq<int>>, unset: int, c: int)
    requires KernGroups(el, names, unset).Success?
    ensures var g1, u1 := Group(el.attrs, "g1"), Group(el.attrs, "u1");
      c in KernGroups(el, names, unset).value.0 <==>
        (exists k :: 0 <= k < |g1| && c in names[g1[k]]) ||
        (exists k :: 0 <= k < |u1| && c == CodeOf(ParseXMLUnicode(u1[k]), unset))
  {
    var g1, u1 := Group(el.attrs, "g1"), Group(el.attrs, "u1");
    var n1, c1 := ResolveNames(g1, names).value, ParseRefs(u1, unset).value;
    if c in c1 {
      var k :| 0 <= k < |c1| && c1[k] == c;
      assert c == CodeOf(ParseXMLUnicode(u1[k]), unset);
    }
  }

  /** The same for the second group and `g2`, `u2`. */
  lemma KernSecondGroup(el: Element, names: map<string, seq<int>>, unset: int, c: int)
    requires KernGroups(el, names, unset).Success?
    ensures var g2, u2 := Group(el.attrs, "g2"), Group(el.attrs, "u2");
      c in KernGroups(el, names, unset).value.1 <==>
        (exists k :: 0 <= k < |g2| && c in names[g2[k]]) ||
        (exists k :: 0 <= k < |u2| && c == CodeOf(ParseXMLUnicode(u2[k]), unset))
  {
    var g2, u2 := Group(el.attrs, "g2"), Group(el.attrs, "u2");
    var n2, c2 := ResolveNames(g2, names).value, ParseRefs(u2, unset).value;
    if c in c2 {
      var k :| 0 <= k < |c2| && c2[k] == c;
      assert c == CodeOf(ParseXMLUnicode(u2[k]), unset);
    }
  }

  /** An `hkern` element naming a glyph name no glyph carries fails. */
  lemma UnknownGlyphNameFails(el: Element, names: map<string, seq<int>>, unset: int, side: string, k: nat)
    requires side == "g1" || side == "g2"
    requires k < |Group(el.attrs, side)| && Group(el.attrs, side)[k] !in names
    ensures KernGroups(el, names, unset).Failure?
  {
  }

  /** The kerning loop over the font element's children. */
  function KernPass(cs: seq<Element>, table: map<int, map<int, real>>, names: map<string, seq<int>>, multiply: real, unset: int)
    : Result<map<int, map<int, real>>, LoadError>
    decreases |cs|
  {
    if cs == [] then Success(table)
    else
      match KernStep(table, cs[0], names, multiply, unset)
      case Failure(e) => Failure(e)
      case Success(t') => KernPass(cs[1..], t', names, multiply, unset)
  }

  /** The glyph table with '?' synthesized when the file has none: no
      texture, zero advance and origin, the em box's size truncated to
      integers (its height taken as bottom - top). */
  function WithFallback(glyphs: map<int, Glyph>, box: BBox): (r: map<int, Glyph>)
    ensures DefaultChar in r
    ensures DefaultChar in glyphs ==> r == glyphs
    ensures DefaultChar !in glyphs ==>
      r == glyphs[DefaultChar := Glyph(None, Trunc(box.right - box.left), Trunc(box.bottom - box.top), 0.0, 0.0, 0.0)]
  {
    if DefaultChar in glyphs then glyphs
    else glyphs[DefaultChar := Glyph(None, Trunc(box.right - box.left), Trunc(box.bottom - box.top), 0.0, 0.0, 0.0)]
  }

  /** C's float to int conversion: truncation toward zero. */
  function Trunc(r: real): (n: int)
    ensures r >= 0.0 ==> n as real <= r < n as real + 1.0
    ensures r < 0.0 ==> n as real - 1.0 < r <= n as real
  {
    if r >= 0.0 then r.Floor else -((-r).Floor)
  }

  /** The font element the loader reads: root `svg`, first `defs` child,
      first `font` child of that. */
  function LocateFont(root: Option<Element>): Result<Element, LoadError>
  {
    match root
    case None => Failure(NoRootElement)
    case Some(svg) =>
      if !SameName(svg.name, "svg") then Failure(NotSvg(svg.name))
      else
        match FirstNamed(svg.children, "defs")
        case None => Failure(NoDefs)
        case Some(i) =>
          match FirstNamed(svg.children[i].children, "font")
          case None => Failure(NoFont)
          case Some(j) => Success(svg.children[i].children[j])
  }

  /** Documents whose font's glyph path data the interpreter can run. */
  predicate FontReady(root: Option<Element>)
  {
    LocateFont(root).Success? ==>
      var cs := LocateFont(root).value.children;
      forall k :: 0 <= k < |cs| ==> PathReady(cs[k])
  }

  /** What `ParseSVGFont` produces for a document and a pixel size. */
  function LoadFont(root: Option<Element>, size: int, unset: int): (r: Result<Font, LoadError>)
    requires FontReady(root)
    ensures r.Success? ==> Usable(r.value) && r.value.size == size
  {
    match LocateFont(root)
    case Failure(e) => Failure(e)
    case Success(fnt) =>
      match HeaderOf(fnt, size)
      case Failure(e) => Failure(e)
      case Success(h) => FontFrom(fnt.children, h, size, unset)
  }

  /** The glyph and kerning passes over the children of the font element,
      after its header h has been read. */
  function FontFrom(cs: seq<Element>, h: Header, size: int, unset: int): (r: Result<Font, LoadError>)
    requires forall k :: 0 <= k < |cs| ==> PathReady(cs[k])
    ensures r.Success? ==> Usable(r.value) && r.value.size == size
  {
    match GlyphPass(cs, Tables(map[], map[]), h.bbox, h.multiply, unset)
    case Failure(e) => Failure(e)
    case Success(t) =>
      match KernPass(cs, map[], t.names, h.multiply, unset)
      case Failure(e) => Failure(e)
      case Success(table) =>
        Success(Font(size, h.bbox, h.horizAdvX, h.horizOriginX, h.horizOriginY, WithFallback(t.glyphs, h.bbox), table))
  }

  /** Every coded glyph of a loaded font is in its table, holding the
      glyph its element gives with the font's scaled box and scale. */
  lemma LoadedFontHasItsGlyphs(root: Option<Element>, size: int, unset: int, k: nat)
    requires FontReady(root) && LoadFont(root, size, unset).Success?
    requires k < |LocateFont(root).value.children| && IsCodedGlyph(LocateFont(root).value.children[k])
    ensures var el := LocateFont(root).value.children[k];
      var h := HeaderOf(LocateFont(root).value, size).value;
      !ParseXMLUnicode(el.attrs["unicode"]).Rejected? &&
      CodeOfGlyph(el, unset) in LoadFont(root, size, unset).value.glyphs &&
      MakeGlyph(el, h.bbox, h.multiply).Success? &&
      LoadFont(root, size, unset).value.glyphs[CodeOfGlyph(el, unset)] == MakeGlyph(el, h.bbox, h.multiply).value
  {
    var fnt := LocateFont(root).value;
    var h := HeaderOf(fnt, size).value;
    GlyphPassKeepsCodes(fnt.children, Tables(map[], map[]), h.bbox, h.multiply, unset, k);
  }

  /** A loaded font's em box is the four `bbox` numbers of its `font-face`
      element, each times the pixel size over the units per em, and its
      default metrics are the font element's attributes times that scale,
      0 where absent. */
  lemma LoadedFontMetrics(root: Option<Element>, size: int, unset: int)
    requires FontReady(root) && LoadFont(root, size, unset).Success?
    ensures var fnt := LocateFont(root).value;
      var face := fnt.children[FirstNamed(fnt.children, "font-face").value];
      var m := Scale(size, Atoi(face.attrs["units-per-em"]));
      var b := PathFloats(4, face.attrs["bbox"], 0).value.0;
      var f := LoadFont(root, size, unset).value;
      f.bbox == BBox(b[0] * m, b[1] * m, b[2] * m, b[3] * m) &&
      f.horizAdvX == (if "horiz-adv-x" in fnt.attrs then Scaled(fnt.attrs["horiz-adv-x"], m) else 0.0) &&
      f.horizOriginX == (if "horiz-origin-x" in fnt.attrs then Scaled(fnt.attrs["horiz-origin-x"], m) else 0.0) &&
      f.horizOriginY == (if "horiz-origin-y" in fnt.attrs then Scaled(fnt.attrs["horiz-origin-y"], m) else 0.0)
  {
    var fnt := LocateFont(root).value;
    HeaderScaling(fnt, size);
  }

  /** One pass of the glyph loop of `ParseSVGFont`. */
  method ReadGlyph(t: Tables, el: Element, box: BBox, multiply: real, unset: int) returns (r: Result<Tables, LoadError>)
    requires PathReady(el)
    ensures r == GlyphStep(t, el, box, multiply, unset)
  {
    if !IsCodedGlyph(el) {
      return Success(t);
    }
    var u := ParseXMLUnicode(el.attrs["unicode"]);
    if u.Rejected? {
      return Failure(BadUnicode(el.attrs["unicode"]));
    }
    var ch := CodeOf(u, unset);
    var names := t.names;
    if "glyph-name" in el.attrs {
      names := AddName(names, el.attrs["glyph-name"], ch);
    }
    if ch in t.glyphs {
      return Failure(DuplicateUnicode(ch));
    }
    var tex: Option<Outline> := None;
    var w, h := 0, 0;
    if "d" in el.attrs {
      var o := ParseGlyphPath(el.attrs["d"], box, multiply);
      if o.Failure? {
        return Failure(BadGlyphPath(o.error));
      }
      tex, w, h := Some(o.value), o.value.texW, o.value.texH;
    }
    var g := Glyph(tex, w, h, Metric(el.attrs, "horiz-adv-x", multiply, -1.0),
                   Metric(el.attrs, "horiz-origin-x", multiply, -1.0),
                   Metric(el.attrs, "horiz-origin-y", multiply, -1.0));
    return Success(Tables(t.glyphs[ch := g], names));
  }

  /** The glyph loop of `ParseSVGFont`. */
  method ReadGlyphs(cs: seq<Element>, box: BBox, multiply: real, unset: int) returns (r: Result<Tables, LoadError>)
    requires forall k :: 0 <= k < |cs| ==> PathReady(cs[k])
    ensures r == GlyphPass(cs, Tables(map[], map[]), box, multiply, unset)
  {
    var t := Tables(map[], map[]);
    var k := 0;
    while k < |cs|
      invariant k <= |cs|
      invariant GlyphPass(cs[k..], t, box, multiply, unset) == GlyphPass(cs, Tables(map[], map[]), box, multiply, unset)
    {
      assert cs[k..][0] == cs[k] && cs[k..][1..] == cs[k + 1..];
      var step := ReadGlyph(t, cs[k], box, multiply, unset);
      if step.Failure? {
        return Failure(step.error);
      }
      t := step.value;
      k := k + 1;
    }
    return Success(t);
  }

  /** Either a failure, or acc followed by a success's code points. */
  function Prefixed(acc: seq<int>, r: Result<seq<int>, LoadError>): Result<seq<int>, LoadError>
  {
    if r.Failure? then r else Success(acc + r.value)
  }

  lemma PrefixedNothing(r: Result<seq<int>, LoadError>)
    ensures Prefixed([], r) == r
  {
    if r.Success? {
      assert [] + r.value == r.value;
    }
  }

  /** Resolving a kerning group's glyph names, left to right. */
  method ResolveGroupNames(gs: seq<string>, names: map<string, seq<int>>) returns (r: Result<seq<int>, LoadError>)
    ensures r == ResolveNames(gs, names)
  {
    var acc := [];
    var k := 0;
    assert gs[k..] == gs;
    PrefixedNothing(ResolveNames(gs, names));
    while k < |gs|
      invariant k <= |gs|
      invariant Prefixed(acc, ResolveNames(gs[k..], names)) == ResolveNames(gs, names)
    {
      assert gs[k..][0] == gs[k] && gs[k..][1..] == gs[k + 1..];
      if gs[k] !in names {
        return Failure(UndefinedGlyphName(gs[k]));
      }
      ghost var rest := ResolveNames(gs[k + 1..], names);
      if rest.Success? {
        assert acc + (names[gs[k]] + rest.value) == (acc + names[gs[k]]) + rest.value;
      }
      acc := acc + names[gs[k]];
      k := k + 1;
    }
    assert gs[k..] == [] && acc + [] == acc;
    return Success(acc);
  }

  /** Parsing a kerning group's unicode references, left to right. */
  method ParseUnicodeList(ss: seq<string>, unset: int) returns (r: Result<seq<int>, LoadError>)
    ensures r == ParseRefs(ss, unset)
  {
    var acc := [];
    var k := 0;
    assert ss[k..] == ss;
    PrefixedNothing(ParseRefs(ss, unset));
    while k < |ss|
      invariant k <= |ss|
      invariant Prefixed(acc, ParseRefs(ss[k..], unset)) == ParseRefs(ss, unset)
    {
      assert ss[k..][0] == ss[k] && ss[k..][1..] == ss[k + 1..];
      var u := ParseXMLUnicode(ss[k]);
      if u.Rejected? {
        return Failure(BadKernUnicode(ss[k]));
      }
      ghost var rest := ParseRefs(ss[k + 1..], unset);
      if rest.Success? {
        assert acc + ([CodeOf(u, unset)] + rest.value) == (acc + [CodeOf(u, unset)]) + rest.value;
      }
      acc := acc + [CodeOf(u, unset)];
      k := k + 1;
    }
    assert ss[k..] == [] && acc + [] == acc;
    return Success(acc);
  }

  /** The nested loops that store k for every pair of the two groups. */
  method AddPairs(table: map<int, map<int, real>>, u1: seq<int>, u2: seq<int>, k: real) returns (r: map<int, map<int, real>>)
    ensures r == AddKernPairs(table, u1, u2, k)
  {
    r := table;
    var i := 0;
    while i < |u1|
      invariant i <= |u1|
      invariant AddKernPairs(r, u1[i..], u2, k) == AddKernPairs(table, u1, u2, k)
    {
      assert u1[i..][0] == u1[i] && u1[i..][1..] == u1[i + 1..];
      var row := if u1[i] in r then r[u1[i]] else map[];
      ghost var first := row;
      var j := 0;
      while j < |u2|
        invariant j <= |u2|
        invariant SetRow(row, u2[j..], k) == SetRow(first, u2, k)
      {
        assert u2[j..][0] == u2[j] && u2[j..][1..] == u2[j + 1..];
        row := row[u2[j] := k];
        j := j + 1;
      }
      r := r[u1[i] := row];
      i := i + 1;
    }
  }

  /** The two groups of an `hkern` element, each made of its glyph names'
      code points followed by its unicode references. */
  method ReadKernGroups(el: Element, names: map<string, seq<int>>, unset: int) returns (r: Result<(seq<int>, seq<int>), LoadError>)
    ensures r == KernGroups(el, names, unset)
  {
    var g1, su1, g2, su2 := Group(el.attrs, "g1"), Group(el.attrs, "u1"), Group(el.attrs, "g2"), Group(el.attrs, "u2");
    if g1 == [] && su1 == [] {
      return Failure(NoFirstGroup);
    }
    if g2 == [] && su2 == [] {
      return Failure(NoSecondGroup);
    }
    var n1 := ResolveGroupNames(g1, names);
    if n1.Failure? {
      return Failure(n1.error);
    }
    var n2 := ResolveGroupNames(g2, names);
    if n2.Failure? {
      return Failure(n2.error);
    }
    var c1 := ParseUnicodeList(su1, unset);
    if c1.Failure? {
      return Failure(c1.error);
    }
    var c2 := ParseUnicodeList(su2, unset);
    if c2.Failure? {
      return Failure(c2.error);
    }
    return Success((n1.value + c1.value, n2.value + c2.value));
  }

  /** One pass of the kerning loop of `ParseSVGFont`. */
  method ReadKern(table: map<int, map<int, real>>, el: Element, names: map<string, seq<int>>, multiply: real, unset: int)
    returns (r: Result<map<int, map<int, real>>, LoadError>)
    ensures r == KernStep(table, el, names, multiply, unset)
  {
    if !SameName(el.name, "hkern") {
      return Success(table);
    }
    if "k" !in el.attrs {
      return Failure(NoKernValue);
    }
    var k := Scaled(el.attrs["k"], multiply);
    var groups := ReadKernGroups(el, names, unset);
    if groups.Failure? {
      return Failure(groups.error);
    }
    var updated := AddPairs(table, groups.value.0, groups.value.1, k);
    return Success(updated);
  }

  /** The kerning loop of `ParseSVGFont`. */
  method ReadKerning(cs: seq<Element>, names: map<string, seq<int>>, multiply: real, unset: int)
    returns (r: Result<map<int, map<int, real>>, LoadError>)
    ensures r == KernPass(cs, map[], names, multiply, unset)
  {
    var table := map[];
    var k := 0;
    while k < |cs|
      invariant k <= |cs|
      invariant KernPass(cs[k..], table, names, multiply, unset) == KernPass(cs, map[], names, multiply, unset)
    {
      assert cs[k..][0] == cs[k] && cs[k..][1..] == cs[k + 1..];
      var step := ReadKern(table, cs[k], names, multiply, unset);
      if step.Failure? {
        return Failure(step.error);
      }
      table := step.value;
      k := k + 1;
    }
    return Success(table);
  }

  /** The element walk at the start of `ParseSVGFont`. */
  method FindFont(root: Option<Element>) returns (r: Result<Element, LoadError>)
    ensures r == LocateFont(root)
  {
    if root.None? {
      return Failure(NoRootElement);
    }
    var svg := root.value;
    if !SameName(svg.name, "svg") {
      return Failure(NotSvg(svg.name));
    }
    var i := FindChild(svg.children, "defs");
    if i.None? {
      return Failure(NoDefs);
    }
    var defs := svg.children[i.value];
    var j := FindChild(defs.children, "font");
    if j.None? {
      return Failure(NoFont);
    }
    return Success(defs.children[j.value]);
  }

  /** `ParseSVGFont`: locate the font element, read its header, its glyphs
      and its kerning pairs, and synthesize '?' when the file has none. */
  method ParseSVGFont(root: Option<Element>, size: int, unset: int) returns (r: Result<Font, LoadError>)
    requires FontReady(root)
    ensures r == LoadFont(root, size, unset)
  {
    var located := FindFont(root);
    if located.Failure? {
      return Failure(located.error);
    }
    var fnt := located.value;
    var header := ParseSvgFontHeader(fnt, size);
    if header.Failure? {
      return Failure(header.error);
    }
    var h := header.value;
    r := ReadFont(fnt.children, h, size, unset);
  }

  /** The glyph loop, the kerning loop and the fallback '?' of
      `ParseSVGFont`. */
  method ReadFont(cs: seq<Element>, h: Header, size: int, unset: int) returns (r: Result<Font, LoadError>)
    requires forall k :: 0 <= k < |cs| ==> PathReady(cs[k])
    ensures r == FontFrom(cs, h, size, unset)
  {
    var tables := ReadGlyphs(cs, h.bbox, h.multiply, unset);
    if tables.Failure? {
      return Failure(tables.error);
    }
    var kerning := ReadKerning(cs, tables.value.names, h.multiply, unset);
    if kerning.Failure? {
      return Failure(kerning.error);
    }
    var glyphs := tables.value.glyphs;
    if DefaultChar !in glyphs {
      glyphs := glyphs[DefaultChar := Glyph(None, Trunc(h.bbox.right - h.bbox.left), Trunc(h.bbox.bottom - h.bbox.top), 0.0, 0.0, 0.0)];
    }
    return Success(Font(size, h.bbox, h.horizAdvX, h.horizOriginX, h.horizOriginY, glyphs, kerning.value));
  }
}
