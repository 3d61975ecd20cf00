/** The loaded font of src/font.cpp and its metric accessors (`GetHKern`,
    `GetHAdv`, `GetGlyphOrigin`, `GetLineSpacing`).  Code points are
    integers; metrics are reals, already scaled to pixels. */
module FontData {
  import opened Wrappers
  import opened FontPath

  /** The code point every missing glyph falls back to: '?'. */
  const DefaultChar := 63

  /** One glyph: its rasterized outline (None for the NULL texture), the
      texture size and its own metrics (-1 when the font file gave none). */
  datatype Glyph = Glyph(tex: Option<Outline>, texW: int, texH: int,
                         horizAdvX: real, horizOriginX: real, horizOriginY: real)

  /** A loaded font: its size, em box, default metrics, the code point to
      glyph table and the directional kerning table (first, second) -> k. */
  datatype Font = Font(size: int, bbox: BBox, horizAdvX: real, horizOriginX: real, horizOriginY: real,
                       glyphs: map<int, Glyph>, hKernTable: map<int, map<int, real>>)

  /** Fonts the layout functions can work on: the fallback glyph exists. */
  predicate Usable(font: Font)
  {
    DefaultChar in font.glyphs
  }

  /** The kerning table entry for the pair (a, b), if any. */
  function Entry(table: map<int, map<int, real>>, a: int, b: int): Option<real>
  {
    if a in table && b in table[a] then Some(table[a][b]) else None
  }

  /** `GetHKern`: the kerning between prev and c; 0 at the start of a line
      (prev == 0) and for pairs the table does not hold. */
  function GetHKern(font: Font, prev: int, c: int): (k: real)
    ensures prev == 0 ==> k == 0.0
    ensures prev != 0 && Entry(font.hKernTable, prev, c).Some? ==> k == Entry(font.hKernTable, prev, c).value
    ensures Entry(font.hKernTable, prev, c).None? ==> k == 0.0
  {
    if prev != 0 && prev in font.hKernTable && c in font.hKernTable[prev] then font.hKernTable[prev][c] else 0.0
  }

  /** `GetHAdv`: the glyph's advance when it sets a positive one, else the
      font's default. */
  function GetHAdv(font: Font, glyph: Option<Glyph>): (adv: real)
    ensures glyph.Some? && glyph.value.horizAdvX > 0.0 ==> adv == glyph.value.horizAdvX
    ensures !(glyph.Some? && glyph.value.horizAdvX > 0.0) ==> adv == font.horizAdvX
    ensures adv == font.horizAdvX || adv > 0.0
    ensures font.horizAdvX >= 0.0 ==> adv >= 0.0
  {
    if glyph.Some? && glyph.value.horizAdvX > 0.0 then glyph.value.horizAdvX else font.horizAdvX
  }

  /** `GetGlyphOrigin`: each coordinate of the glyph's origin when it is
      positive, else the font's default. */
  function GetGlyphOrigin(font: Font, glyph: Option<Glyph>): (o: (real, real))
    ensures glyph.Some? && glyph.value.horizOriginX > 0.0 ==> o.0 == glyph.value.horizOriginX
    ensures glyph.Some? && glyph.value.horizOriginY > 0.0 ==> o.1 == glyph.value.horizOriginY
    ensures !(glyph.Some? && glyph.value.horizOriginX > 0.0) ==> o.0 == font.horizOriginX
    ensures !(glyph.Some? && glyph.value.horizOriginY > 0.0) ==> o.1 == font.horizOriginY
    ensures o.0 == font.horizOriginX || o.0 > 0.0
    ensures o.1 == font.horizOriginY || o.1 > 0.0
  {
    (if glyph.Some? && glyph.value.horizOriginX > 0.0 then glyph.value.horizOriginX else font.horizOriginX,
     if glyph.Some? && glyph.value.horizOriginY > 0.0 then glyph.value.horizOriginY else font.horizOriginY)
  }

  /** `GetLineSpacing`: the height of the em box. */
  function GetLineSpacing(font: Font): (h: real)
    ensures h + font.bbox.bottom == font.bbox.top
  {
    font.bbox.top - font.bbox.bottom
  }

  /** The glyph lookup the layout loops repeat: a code point without a glyph
      is replaced by '?', and the replaced code point is what they carry on
      with (also as the next kerning partner). */
  function Lookup(font: Font, c: int): (r: (int, Glyph))
    requires Usable(font)
    ensures r.0 in font.glyphs && font.glyphs[r.0] == r.1
    ensures r.0 == c <==> c in font.glyphs
    ensures r.0 != c ==> r.0 == DefaultChar
  {
    if c in font.glyphs then (c, font.glyphs[c]) else (DefaultChar, font.glyphs[DefaultChar])
  }

  /** The advance of the glyph drawn for code point c. */
  function Advance(font: Font, c: int): real
    requires Usable(font)
  {
    GetHAdv(font, Some(Lookup(font, c).1))
  }

  /** Looking a code point up twice changes nothing: the replacement '?' has
      a glyph of its own. */
  lemma LookupIdempotent(font: Font, c: int)
    requires Usable(font)
    ensures Lookup(font, Lookup(font, c).0) == Lookup(font, c)
  {
  }
}
