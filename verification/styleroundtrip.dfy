/** Writing the style list as a property and reading it back into an empty
    list. The property keeps only the set flags, so the reader cannot tell
    user from inherited flags: it rebuilds the split with the gradient flag
    as the only user flag. Fonts and gradient arrays come back only when
    their flags are set, and the missing-pixmap rule must not fire; styles
    that meet these conditions come back otherwise unchanged. */
module StyleRoundTrip {
  import opened Wrappers
  import opened StyleModel
  import opened StyleFlags
  import opened StyleWriter
  import opened StyleReader
  import opened PointSlots
  import opened SeqFacts

  /** A style the reader rebuilds from its record: exact gradient arrays,
      and the gradient type the texture type translates to, behind a set
      gradient flag (and none without it), a font only behind
      the font flag, a pixmap the server accepts, and nothing for the
      missing-pixmap rule to drop. */
  predicate Canonical(d: Display, s: Style) {
    var m := d.masks;
    var g := s.gradient;
    && g.npoints < 0x8000_0000
    && |g.colors| == Points(g) && |g.offsets| == Points(g)
    && (Has(s.setFlags, m.backGradient) ==> g.kind == d.gradType(s.textureType))
    && (Has(s.setFlags, m.backGradient) || g == Gradient(0, [], [], 0))
    && (Has(s.setFlags, m.font) || s.font == "")
    && CheckedPixmap(d, s.pix) == s.pix
    && (s.pix == 0 && s.textureType != ExemptTexture ==>
          !Has(s.setFlags, m.backPixmap) && !Has(s.setFlags, m.backTransPixmap))
  }

  /** The style the reader rebuilds: the same fields, the set flags split
      into the gradient flag (user) and the rest (inherited). */
  function ReadBack(m: FlagMasks, s: Style): (t: Style)
    ensures t.name == s.name
  {
    s.(userFlags := UserAfterGradient(m, s.setFlags), inheritFlags := InheritAfterGradient(m, s.setFlags))
  }

  function ReadBackAll(m: FlagMasks, ss: seq<Style>): (ts: seq<Style>)
    ensures |ts| == |ss|
    ensures forall j :: 0 <= j < |ss| ==> ts[j] == ReadBack(m, ss[j])
  {
    if |ss| == 0 then [] else [ReadBack(m, ss[0])] + ReadBackAll(m, ss[1..])
  }

  /** Slots 0, 8, 10 and 11 of a style's record: the set flags, texture
      type, pixmap and mask. */
  lemma FlagSlots(a: Atoms, s: Style)
    requires GradientReadable(s.gradient)
    ensures var rec := EncodeStyle(a, s);
            rec[0] == s.setFlags && rec[8] == s.textureType && rec[10] == s.pix && rec[11] == s.mask
  {
    HeaderFlags(a, s);
    HeaderIcon(a, s);
  }

  /** Slots 1 and 3: the atoms of the style's name and its font's name. */
  lemma NameSlots(a: Atoms, s: Style)
    requires GradientReadable(s.gradient)
    ensures var rec := EncodeStyle(a, s);
            rec[1] == a.intern(s.name) && rec[3] == a.intern(s.font)
  {
    HeaderAtoms(a, s);
  }

  /** Slots 2 and 4-7: text style and the four colours. */
  lemma ColourSlots(a: Atoms, s: Style)
    requires GradientReadable(s.gradient)
    ensures var rec := EncodeStyle(a, s);
            && rec[2] == s.textStyle && rec[4] == s.fore && rec[5] == s.back
            && rec[6] == s.reliefFore && rec[7] == s.reliefBack
  {
    HeaderFlags(a, s);
    HeaderColours(a, s);
  }

  /** Slots 9, 12, 13 and 15: max colours, tint, alpha and the point
      count; after the header come the point words. */
  lemma CountSlots(a: Atoms, s: Style)
    requires GradientReadable(s.gradient)
    ensures var rec := EncodeStyle(a, s);
            && rec[9] == s.maxColors && rec[12] == s.tint && rec[13] == s.alpha
            && rec[15] == s.gradient.npoints
            && PointSlotsOf(rec) == PointWords(s.gradient, Points(s.gradient))
  {
    HeaderIcon(a, s);
    HeaderTail(a, s);
    SuffixOfAppend(Header(a, s), PointWords(s.gradient, Points(s.gradient)));
  }

  /** The writer's record is one record to the reader. */
  lemma RecordIsRecord(a: Atoms, s: Style)
    requires GradientReadable(s.gradient)
    ensures IsRecord(EncodeStyle(a, s))
    ensures RecordLength(EncodeStyle(a, s)) == RecordWords(s)
  {
    CountSlots(a, s);
  }

  /** The set flags of a canonical style's record survive the reader, with
      no warning. */
  lemma FlagsReadBack(d: Display, a: Atoms, s: Style)
    requires GradientApart(d.masks)
    requires Canonical(d, s)
    ensures var r := ApplyRecord(d, NewStyle(s.name), EncodeStyle(a, s));
            r.notes == [] && r.style.setFlags == s.setFlags
  {
    var rec := EncodeStyle(a, s);
    FlagSlots(a, s);
    PixmapKept(d, rec);
    FlagsPreserved(d, NewStyle(s.name), rec);
  }

  /** The reader splits the set flags of a record into the gradient flag
      (user) and the rest (inherited). */
  lemma SplitFlagsReadBack(d: Display, a: Atoms, s: Style)
    requires GradientApart(d.masks)
    requires Canonical(d, s)
    ensures var r := ApplyRecord(d, NewStyle(s.name), EncodeStyle(a, s));
            && r.style.userFlags == UserAfterGradient(d.masks, s.setFlags)
            && r.style.inheritFlags == InheritAfterGradient(d.masks, s.setFlags)
  {
    var rec := EncodeStyle(a, s);
    FlagSlots(a, s);
    PixmapKept(d, rec);
    KeepInherits(d.masks, PixmapMissing(d, rec), rec[0]);
  }

  /** Texture type and mask of a canonical style's record survive the
      reader. */
  lemma PixmapFieldsReadBack(d: Display, a: Atoms, s: Style)
    requires GradientApart(d.masks)
    requires Canonical(d, s)
    ensures var r := ApplyRecord(d, NewStyle(s.name), EncodeStyle(a, s));
            r.style.textureType == s.textureType && r.style.mask == s.mask
  {
    FlagSlots(a, s);
    PixmapKept(d, EncodeStyle(a, s));
  }

  /** The font of a canonical style's record survives the reader. */
  lemma FontReadBack(d: Display, a: Atoms, s: Style)
    requires d.atoms == a && AtomsInverse(a)
    requires Canonical(d, s)
    ensures ApplyRecord(d, NewStyle(s.name), EncodeStyle(a, s)).style.font == s.font
  {
    FlagSlots(a, s);
    NameSlots(a, s);
  }

  /** The gradient of a canonical style's record survives the reader:
      read from the point slots when its flag is set, and empty (as in a
      new style) when it is not. */
  lemma GradientReadBack(d: Display, a: Atoms, s: Style)
    requires Canonical(d, s)
    ensures ApplyRecord(d, NewStyle(s.name), EncodeStyle(a, s)).style.gradient == s.gradient
  {
    if Has(s.setFlags, d.masks.backGradient) {
      WrittenGradientReadBack(d, a, s);
    } else {
      FlagSlots(a, s);
      CountSlots(a, s);
    }
  }

  lemma WrittenGradientReadBack(d: Display, a: Atoms, s: Style)
    requires Canonical(d, s) && Has(s.setFlags, d.masks.backGradient)
    ensures ApplyRecord(d, NewStyle(s.name), EncodeStyle(a, s)).style.gradient == s.gradient
  {
    var g := s.gradient;
    FlagSlots(a, s);
    CountSlots(a, s);
    ReadBackWhole(g.colors, g.offsets);
  }

  /** A canonical style's record, read into a fresh style of its name,
      gives the style back with its flags split, and no warning. */
  lemma StyleReadBack(d: Display, a: Atoms, s: Style)
    requires d.atoms == a && AtomsInverse(a)
    requires GradientApart(d.masks)
    requires Canonical(d, s)
    ensures ApplyRecord(d, NewStyle(s.name), EncodeStyle(a, s)) == Applied(ReadBack(d.masks, s), [])
  {
    FlagSlots(a, s);
    NameSlots(a, s);
    ColourSlots(a, s);
    CountSlots(a, s);
    FlagsReadBack(d, a, s);
    SplitFlagsReadBack(d, a, s);
    PixmapFieldsReadBack(d, a, s);
    FontReadBack(d, a, s);
    GradientReadBack(d, a, s);
  }

  /** A name in no style of the list is not found there. */
  lemma FindMissing(ss: seq<Style>, name: string)
    requires name !in NameSet(ss)
    ensures FindStyle(ss, name) == |ss|
  {
  }

  /** Every style of the list is canonical. */
  predicate AllCanonical(d: Display, ss: seq<Style>) {
    forall j :: 0 <= j < |ss| ==> Canonical(d, ss[j])
  }

  lemma CanonicalReadable(d: Display, ss: seq<Style>)
    requires AllCanonical(d, ss)
    ensures AllReadable(ss)
  {
    forall j | 0 <= j < |ss| ensures GradientReadable(ss[j].gradient) {
      assert Canonical(d, ss[j]);
    }
  }

  /** The property starts with the first style's record, followed by the
      property of the others. */
  lemma FirstRecord(a: Atoms, ss: seq<Style>)
    requires AllReadable(ss) && |ss| > 0
    ensures var ws := Encode(a, ss);
            && |ws| >= 16 && ws[15] < 0x8000_0000
            && RecordLength(ws) <= |ws|
            && ws[..RecordLength(ws)] == EncodeStyle(a, ss[0])
            && ws[RecordLength(ws)..] == Encode(a, ss[1..])
  {
    var rec := EncodeStyle(a, ss[0]);
    var ws := Encode(a, ss);
    assert ws == rec + Encode(a, ss[1..]);
    RecordIsRecord(a, ss[0]);
    assert ws[..16] == rec[..16];
    assert ws[..|rec|] == rec;
  }

  /** The writer's property is framed: it splits into whole records. */
  lemma {:induction false} EncodeFramed(a: Atoms, ss: seq<Style>)
    requires AllReadable(ss)
    ensures Framed(Encode(a, ss))
    decreases |ss|
  {
    if |ss| > 0 {
      FirstRecord(a, ss);
      EncodeFramed(a, ss[1..]);
    }
  }

  /** One canonical style's record, read into a list without its name,
      appends the rebuilt style, with no warning. */
  lemma DecodeOneFresh(d: Display, a: Atoms, acc: seq<Style>, s: Style)
    requires d.atoms == a && AtomsInverse(a)
    requires GradientApart(d.masks)
    requires Canonical(d, s) && s.name !in NameSet(acc)
    ensures DecodeRecord(d, acc, EncodeStyle(a, s)) == Decoded(acc + [ReadBack(d.masks, s)], [])
  {
    NameSlots(a, s);
    FindMissing(acc, s.name);
    StyleReadBack(d, a, s);
  }

  /** No style of `ss` is named in `acc`. */
  predicate FreshNames(acc: seq<Style>, ss: seq<Style>) {
    forall j :: 0 <= j < |ss| ==> ss[j].name !in NameSet(acc)
  }

  /** Once the first style is rebuilt into `acc`, the others are still
      canonical, distinctly named, and fresh for the longer list. */
  lemma FreshTail(d: Display, acc: seq<Style>, ss: seq<Style>)
    requires |ss| > 0
    requires AllCanonical(d, ss) && DistinctNames(ss) && FreshNames(acc, ss)
    ensures AllCanonical(d, ss[1..]) && DistinctNames(ss[1..])
    ensures FreshNames(acc + [ReadBack(d.masks, ss[0])], ss[1..])
  {
    var rest, acc' := ss[1..], acc + [ReadBack(d.masks, ss[0])];
    NamesAfterAppend(acc, ReadBack(d.masks, ss[0]));
    forall j | 0 <= j < |rest| ensures rest[j].name !in NameSet(acc') {
      assert rest[j] == ss[j + 1];
    }
  }

  /** Reading the property written for `ss` into a list `acc` holding none
      of their names appends the rebuilt styles to `acc`, in order, with no
      warning. */
  lemma {:induction false} DecodeFresh(d: Display, a: Atoms, acc: seq<Style>, ss: seq<Style>)
    requires d.atoms == a && AtomsInverse(a)
    requires GradientApart(d.masks)
    requires AllCanonical(d, ss) && DistinctNames(ss) && FreshNames(acc, ss)
    ensures AllReadable(ss)
    ensures Framed(Encode(a, ss))
    ensures DecodeWords(d, acc, Encode(a, ss)) == Decoded(acc + ReadBackAll(d.masks, ss), [])
    decreases |ss|
  {
    CanonicalReadable(d, ss);
    EncodeFramed(a, ss);
    if |ss| > 0 {
      var s := ss[0];
      FirstRecord(a, ss);
      DecodeOneFresh(d, a, acc, s);
      FreshTail(d, acc, ss);
      DecodeFresh(d, a, acc + [ReadBack(d.masks, s)], ss[1..]);
      AppendAssoc(acc, [ReadBack(d.masks, s)], ReadBackAll(d.masks, ss[1..]));
    }
  }

  /** The property written for a list of canonical styles with distinct
      names, read into an empty list, rebuilds every style in order with no
      warning. */
  lemma GetAfterSet(d: Display, a: Atoms, ss: seq<Style>)
    requires d.atoms == a && AtomsInverse(a)
    requires GradientApart(d.masks)
    requires AllCanonical(d, ss) && DistinctNames(ss)
    ensures AllReadable(ss) && Framed(Encode(a, ss))
    ensures MystyleGetProperty(d, [], Some(Property(Encode(a, ss), Version))) == Decoded(ReadBackAll(d.masks, ss), [])
  {
    DecodeFresh(d, a, [], ss);
    assert [] + ReadBackAll(d.masks, ss) == ReadBackAll(d.masks, ss);
  }

  /** The writer reads only the set flags, so the rebuilt styles write the
      same property: writing what was read gives the same words. */
  lemma {:induction false} RewriteSame(m: FlagMasks, a: Atoms, ss: seq<Style>)
    requires AllReadable(ss)
    ensures AllReadable(ReadBackAll(m, ss))
    ensures Encode(a, ReadBackAll(m, ss)) == Encode(a, ss)
    decreases |ss|
  {
    var ts := ReadBackAll(m, ss);
    assert AllReadable(ts) by {
      forall j | 0 <= j < |ts| ensures GradientReadable(ts[j].gradient) {
        assert ts[j].gradient == ss[j].gradient;
      }
    }
    if |ss| > 0 {
      RewriteSame(m, a, ss[1..]);
      assert ts[1..] == ReadBackAll(m, ss[1..]);
      assert EncodeStyle(a, ts[0]) == EncodeStyle(a, ss[0]);
    }
  }
}
