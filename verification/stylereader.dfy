/** The style property reader (`mystyle_get_property`): checks the version,
    then walks the words record by record with the writer's stride, finds
    or creates the style each record names, copies the fields and rewrites
    the flag words. */
module StyleReader {
  import opened Wrappers
  import opened StyleModel
  import opened StyleWriter
  import opened StyleFlags
  import opened PointSlots

  /** The services the reader consults: the atom oracle, the flag bit
      values, whether `XGetGeometry` accepts a pixmap handle, and
      `mystyle_translate_grad_type` from texture type to gradient type. */
  datatype Display = Display(atoms: Atoms, masks: FlagMasks, pixmapValid: PropWord -> bool, gradType: PropWord -> PropWord)

  /** What `get_as_property` hands back: the words and the version tag. */
  datatype Property = Property(data: seq<PropWord>, version: PropWord)

  /** Diagnostics the reader writes to stderr. */
  datatype Note =
    | UnknownVersion(version: PropWord)
    | TransPixmapMissing(style: string)

  /** The length of the record starting at the front of `ws`, from its
      point count in slot 15: 9 + 7 + 4 * npoints. */
  function RecordLength(ws: seq<PropWord>): nat
    requires |ws| >= 16
  {
    16 + 4 * (ws[15] as int)
  }

  /** `ws` is exactly one record: slot 15 holds a non-negative `int` point
      count and the length matches it. */
  predicate IsRecord(ws: seq<PropWord>) {
    |ws| >= 16 && ws[15] < 0x8000_0000 && |ws| == RecordLength(ws)
  }

  /** `ws` splits into whole records when walked with the reader's stride. */
  predicate Framed(ws: seq<PropWord>)
    decreases |ws|
  {
    |ws| == 0 ||
    (&& |ws| >= 16 && ws[15] < 0x8000_0000
     && RecordLength(ws) <= |ws|
     && Framed(ws[RecordLength(ws)..]))
  }

  /** The number of gradient points a record announces in slot 15. */
  function RecordPoints(rec: seq<PropWord>): nat
    requires |rec| >= 16
  {
    rec[15] as int
  }

  /** The gradient point slots of a record: everything after the header.
      In a record slot 15 fixes their number at 4 * npoints. */
  function PointSlotsOf(rec: seq<PropWord>): seq<PropWord>
    requires |rec| >= 16
  {
    rec[16..]
  }

  /** Resources the style owned are released first: a user-set font is
      unloaded and user-set gradient arrays are freed. */
  function Release(m: FlagMasks, s: Style): Style {
    s.(font := if Has(s.userFlags, m.font) then "" else s.font,
       gradient := if Has(s.userFlags, m.backGradient) then s.gradient.(colors := [], offsets := []) else s.gradient)
  }

  /** The pixmap handle after the `XGetGeometry` check: an invalid one
      becomes None. */
  function CheckedPixmap(d: Display, pix: PropWord): PropWord {
    if pix != 0 && !d.pixmapValid(pix) then 0 else pix
  }

  /** The missing-pixmap rule applies: no usable pixmap, and a texture type
      other than 129. */
  predicate PixmapMissing(d: Display, rec: seq<PropWord>)
    requires |rec| >= 16
  {
    CheckedPixmap(d, rec[10]) == 0 && rec[8] != ExemptTexture
  }

  /** The missing-pixmap rule as it applies to a record. */
  function PixmapRule(d: Display, rec: seq<PropWord>): PixmapAction
    requires |rec| >= 16
  {
    RuleFor(d.masks, PixmapMissing(d, rec), rec[0])
  }

  /** The font: loaded from the atom in slot 3 when the font flag is
      written, otherwise what the release left. */
  function FontAfter(d: Display, s: Style, rec: seq<PropWord>): string
    requires |rec| >= 16
  {
    if Has(rec[0], d.masks.font) then d.atoms.nameOf(rec[3]) else s.font
  }

  /** The gradient: the point count from slot 15 always; the type (from
      the texture type in slot 8), the colours and the offsets only when
      the gradient flag is written. */
  function GradientAfter(d: Display, s: Style, rec: seq<PropWord>): Gradient
    requires |rec| >= 16
  {
    if Has(rec[0], d.masks.backGradient) then Gradient(rec[15], ReadColors(PointSlotsOf(rec)), ReadOffsets(PointSlotsOf(rec)), d.gradType(rec[8]))
    else s.gradient.(npoints := rec[15])
  }

  /** Texture type and mask: slots 8 and 11, both zeroed when the back
      pixmap is dropped. */
  function TextureAfter(d: Display, rec: seq<PropWord>): PropWord
    requires |rec| >= 16
  {
    if PixmapRule(d, rec) == DropPixmap then 0 else rec[8]
  }

  function MaskAfter(d: Display, rec: seq<PropWord>): PropWord
    requires |rec| >= 16
  {
    if PixmapRule(d, rec) == DropPixmap then 0 else rec[11]
  }

  /** A style updated from one record, and the diagnostics written. */
  datatype Applied = Applied(style: Style, notes: seq<Note>)

  /** The per-record body of the reader's loop, applied to the style the
      record names: release what the style owned, copy the slots, move the
      gradient flag, check the pixmap, apply the missing-pixmap rule, and
      recompute the set flags. */
  function ApplyRecord(d: Display, s0: Style, rec: seq<PropWord>): (r: Applied)
    requires |rec| >= 16
    ensures r.style.name == s0.name
    ensures r.style.setFlags == Join(r.style.userFlags, r.style.inheritFlags)
  {
    var m, missing, flags := d.masks, PixmapMissing(d, rec), rec[0];
    var user, inherit := UserAfterGradient(m, flags), InheritAfterRule(m, missing, flags);
    var style := CopySlots(d, s0, rec).(
      setFlags := Join(user, inherit), userFlags := user, inheritFlags := inherit,
      textureType := TextureAfter(d, rec), mask := MaskAfter(d, rec));
    Applied(style, if PixmapRule(d, rec) == DropTransPixmap then [TransPixmapMissing(s0.name)] else [])
  }

  /** The slot copies of one record onto the released style. */
  function CopySlots(d: Display, s0: Style, rec: seq<PropWord>): (s: Style)
    requires |rec| >= 16
    ensures s.name == s0.name
  {
    var s := Release(d.masks, s0);
    s.(textStyle := rec[2], font := FontAfter(d, s, rec),
       fore := rec[4], back := rec[5], reliefFore := rec[6], reliefBack := rec[7],
       maxColors := rec[9], pix := CheckedPixmap(d, rec[10]),
       tint := rec[12], alpha := rec[13], gradient := GradientAfter(d, s, rec))
  }

  /** Slots 2, 4-7, 9, 12, 13 and 15 are copied verbatim; the pixmap is
      slot 10 once checked; the font is loaded from slot 3's atom name only
      when the font flag is written, and is what the release left
      otherwise; texture type and mask are slots 8 and 11 unless the back
      pixmap is dropped. */
  lemma FieldsCopied(d: Display, s0: Style, rec: seq<PropWord>)
    requires |rec| >= 16
    ensures var t := ApplyRecord(d, s0, rec).style;
            && t.textStyle == rec[2]
            && t.fore == rec[4] && t.back == rec[5]
            && t.reliefFore == rec[6] && t.reliefBack == rec[7]
            && t.maxColors == rec[9] && t.tint == rec[12] && t.alpha == rec[13]
            && t.gradient.npoints == rec[15]
            && t.pix == (if rec[10] != 0 && !d.pixmapValid(rec[10]) then 0 else rec[10])
            && (Has(rec[0], d.masks.font) ==> t.font == d.atoms.nameOf(rec[3]))
            && (!Has(rec[0], d.masks.font) ==> t.font == Release(d.masks, s0).font)
            && (PixmapRule(d, rec) != DropPixmap ==> t.textureType == rec[8] && t.mask == rec[11])
  {
  }

  /** A written gradient flag moves from the inherited to the user flags;
      an unwritten one leaves the user flags empty. Either way the
      inherited flags do not hold it. */
  lemma GradientFlagMoved(d: Display, s0: Style, rec: seq<PropWord>)
    requires |rec| >= 16
    ensures var t := ApplyRecord(d, s0, rec).style;
            && !Has(t.inheritFlags, d.masks.backGradient)
            && t.userFlags == (if Has(rec[0], d.masks.backGradient) then d.masks.backGradient else 0)
  {
    GradientMoved(d.masks, PixmapMissing(d, rec), rec[0]);
  }

  /** With the gradient flag written, the colours and offsets are read from
      the point slots: colour `k` from slot `16 + 4k`, offset `k` from slot
      `16 + 4k + 3`. Without it they are what the release left. */
  lemma GradientPoints(d: Display, s0: Style, rec: seq<PropWord>)
    requires IsRecord(rec)
    ensures var t := ApplyRecord(d, s0, rec).style;
            && (Has(rec[0], d.masks.backGradient) ==>
                  && t.gradient.kind == d.gradType(rec[8])
                  && |t.gradient.colors| == RecordPoints(rec) == |t.gradient.offsets|
                  && forall k :: 0 <= k < RecordPoints(rec) ==>
                       t.gradient.colors[k] == rec[16 + 4 * k] && t.gradient.offsets[k] == rec[16 + 4 * k + 3])
            && (!Has(rec[0], d.masks.backGradient) ==>
                  && t.gradient.colors == Release(d.masks, s0).gradient.colors
                  && t.gradient.offsets == Release(d.masks, s0).gradient.offsets
                  && t.gradient.kind == s0.gradient.kind)
  {
    if Has(rec[0], d.masks.backGradient) {
      var t := ApplyRecord(d, s0, rec).style;
      var ps := PointSlotsOf(rec);
      var n := RecordPoints(rec);
      ColorsLayout(ps, n);
      OffsetsLayout(ps, n);
      forall k | 0 <= k < n
        ensures t.gradient.colors[k] == rec[16 + 4 * k] && t.gradient.offsets[k] == rec[16 + 4 * k + 3]
      {
        assert ps[4 * k] == rec[16 + 4 * k] && ps[4 * k + 3] == rec[16 + 4 * k + 3];
      }
    }
  }

  /** Unless the missing-pixmap rule drops something, the set flags read
      back are exactly the flags written, and nothing is reported. */
  lemma FlagsPreserved(d: Display, s0: Style, rec: seq<PropWord>)
    requires GradientApart(d.masks)
    requires |rec| >= 16
    requires PixmapRule(d, rec) == Keep
    ensures ApplyRecord(d, s0, rec).style.setFlags == rec[0]
    ensures ApplyRecord(d, s0, rec).notes == []
  {
    KeepRestores(d.masks, PixmapMissing(d, rec), rec[0]);
  }

  /** With a usable pixmap or texture type 129 nothing is dropped, and with
      neither pixmap flag written there is nothing to drop. */
  lemma PixmapKept(d: Display, rec: seq<PropWord>)
    requires GradientApart(d.masks)
    requires |rec| >= 16
    ensures !PixmapMissing(d, rec) ==> PixmapRule(d, rec) == Keep
    ensures !Has(rec[0], d.masks.backPixmap) && !Has(rec[0], d.masks.backTransPixmap) ==> PixmapRule(d, rec) == Keep
  {
    RuleSeesWrittenFlags(d.masks, PixmapMissing(d, rec), rec[0]);
  }

  /** With no usable pixmap and a texture type other than 129, an inherited
      back pixmap is dropped silently: texture type and mask are zeroed. */
  lemma BackPixmapDropped(d: Display, s0: Style, rec: seq<PropWord>)
    requires GradientApart(d.masks)
    requires |rec| >= 16
    requires PixmapMissing(d, rec) && Has(rec[0], d.masks.backPixmap)
    ensures PixmapRule(d, rec) == DropPixmap
    ensures var r := ApplyRecord(d, s0, rec);
            r.style.textureType == 0 && r.style.mask == 0 && r.notes == []
  {
    RuleSeesWrittenFlags(d.masks, true, rec[0]);
  }

  /** A dropped back pixmap clears exactly the two pixmap flags from the
      flags written. */
  lemma BackPixmapFlags(d: Display, s0: Style, rec: seq<PropWord>)
    requires GradientApart(d.masks)
    requires |rec| >= 16
    requires PixmapMissing(d, rec) && Has(rec[0], d.masks.backPixmap)
    ensures ApplyRecord(d, s0, rec).style.setFlags == rec[0] & !(d.masks.backPixmap | d.masks.backTransPixmap)
  {
    RuleSeesWrittenFlags(d.masks, true, rec[0]);
    DropPixmapClears(d.masks, true, rec[0]);
  }

  /** A dropped back pixmap leaves as inherited flags the written ones less
      the gradient flag and both pixmap flags. */
  lemma BackPixmapInherits(d: Display, s0: Style, rec: seq<PropWord>)
    requires GradientApart(d.masks)
    requires |rec| >= 16
    requires PixmapMissing(d, rec) && Has(rec[0], d.masks.backPixmap)
    ensures ApplyRecord(d, s0, rec).style.inheritFlags
            == rec[0] & !(d.masks.backGradient | (d.masks.backPixmap | d.masks.backTransPixmap))
  {
    RuleSeesWrittenFlags(d.masks, true, rec[0]);
    DropPixmapInherits(d.masks, true, rec[0]);
  }

  /** Failing a back pixmap, an inherited transparent pixmap is dropped
      with a warning naming the style; texture type and mask are kept. */
  lemma TransPixmapDropped(d: Display, s0: Style, rec: seq<PropWord>)
    requires GradientApart(d.masks)
    requires |rec| >= 16
    requires PixmapMissing(d, rec) && !Has(rec[0], d.masks.backPixmap) && Has(rec[0], d.masks.backTransPixmap)
    ensures PixmapRule(d, rec) == DropTransPixmap
    ensures var r := ApplyRecord(d, s0, rec);
            r.style.textureType == rec[8] && r.style.mask == rec[11] && r.notes == [TransPixmapMissing(s0.name)]
  {
    RuleSeesWrittenFlags(d.masks, true, rec[0]);
  }

  /** A dropped transparent pixmap clears exactly its own flag from the
      flags written. */
  lemma TransPixmapFlags(d: Display, s0: Style, rec: seq<PropWord>)
    requires GradientApart(d.masks)
    requires |rec| >= 16
    requires PixmapMissing(d, rec) && !Has(rec[0], d.masks.backPixmap) && Has(rec[0], d.masks.backTransPixmap)
    ensures ApplyRecord(d, s0, rec).style.setFlags == rec[0] & !d.masks.backTransPixmap
  {
    RuleSeesWrittenFlags(d.masks, true, rec[0]);
    DropTransPixmapClears(d.masks, true, rec[0]);
  }

  /** A dropped transparent pixmap leaves as inherited flags the written
      ones less the gradient flag and its own flag. */
  lemma TransPixmapInherits(d: Display, s0: Style, rec: seq<PropWord>)
    requires GradientApart(d.masks)
    requires |rec| >= 16
    requires PixmapMissing(d, rec) && !Has(rec[0], d.masks.backPixmap) && Has(rec[0], d.masks.backTransPixmap)
    ensures ApplyRecord(d, s0, rec).style.inheritFlags == rec[0] & !(d.masks.backGradient | d.masks.backTransPixmap)
  {
    RuleSeesWrittenFlags(d.masks, true, rec[0]);
    DropTransPixmapInherits(d.masks, true, rec[0]);
  }

  /** The index of the first style called `name` (`mystyle_find`), or the
      length of the list when there is none. */
  function FindStyle(ss: seq<Style>, name: string): (i: nat)
    ensures i <= |ss|
    ensures i < |ss| ==> ss[i].name == name
    ensures forall j :: 0 <= j < i ==> ss[j].name != name
  {
    if |ss| == 0 || ss[0].name == name then 0 else 1 + FindStyle(ss[1..], name)
  }

  /** The style list after one record: the style it names is updated in
      place, or created and added at the end. */
  datatype Decoded = Decoded(styles: seq<Style>, notes: seq<Note>)

  /** The name a record carries, through the atom oracle. */
  function RecordName(d: Display, rec: seq<PropWord>): string
    requires |rec| >= 16
  {
    d.atoms.nameOf(rec[1])
  }

  function DecodeRecord(d: Display, ss: seq<Style>, rec: seq<PropWord>): (r: Decoded)
    requires |rec| >= 16
    ensures |r.styles| == |ss| || |r.styles| == |ss| + 1
    ensures forall j :: 0 <= j < |ss| ==> r.styles[j].name == ss[j].name
    ensures forall j :: 0 <= j < |ss| && ss[j].name != RecordName(d, rec) ==> r.styles[j] == ss[j]
    ensures NameSet(r.styles) == NameSet(ss) + {RecordName(d, rec)}
  {
    var name := RecordName(d, rec);
    var i := FindStyle(ss, name);
    if i < |ss| then
      var a := ApplyRecord(d, ss[i], rec);
      NamesAfterReplace(ss, i, a.style);
      Decoded(ss[i := a.style], a.notes)
    else
      var a := ApplyRecord(d, NewStyle(name), rec);
      NamesAfterAppend(ss, a.style);
      Decoded(ss + [a.style], a.notes)
  }

  lemma NamesAfterReplace(ss: seq<Style>, i: nat, s: Style)
    requires i < |ss| && s.name == ss[i].name
    ensures NameSet(ss[i := s]) == NameSet(ss)
  {
    var r := ss[i := s];
    assert forall j :: 0 <= j < |r| ==> r[j].name == ss[j].name;
  }

  lemma NamesAfterAppend(ss: seq<Style>, s: Style)
    ensures NameSet(ss + [s]) == NameSet(ss) + {s.name}
  {
    var r := ss + [s];
    assert forall j :: 0 <= j < |ss| ==> r[j] == ss[j];
    assert r[|ss|] == s;
  }

  /** The record updates the first style with its name in place, or, when
      there is none, a new style with that name added at the end; every
      other style is untouched. */
  lemma DecodeRecordTarget(d: Display, ss: seq<Style>, rec: seq<PropWord>)
    requires |rec| >= 16
    ensures var r := DecodeRecord(d, ss, rec).styles;
            var name := RecordName(d, rec);
            var i := FindStyle(ss, name);
            && |r| == (if i < |ss| then |ss| else |ss| + 1)
            && r[i] == ApplyRecord(d, if i < |ss| then ss[i] else NewStyle(name), rec).style
            && (forall j :: 0 <= j < |ss| && j != i ==> r[j] == ss[j])
  {
  }

  /** The names the records of a framed property carry, as a set. */
  function RecordNames(d: Display, ws: seq<PropWord>): set<string>
    requires Framed(ws)
    decreases |ws|
  {
    if |ws| == 0 then {}
    else {RecordName(d, ws)} + RecordNames(d, ws[RecordLength(ws)..])
  }

  /** The reader's loop over a framed property. Styles named by no record
      are left alone and keep their place; every record's name ends up in
      the list; no other style is created. */
  function DecodeWords(d: Display, ss: seq<Style>, ws: seq<PropWord>): (r: Decoded)
    requires Framed(ws)
    ensures |r.styles| >= |ss|
    ensures forall j :: 0 <= j < |ss| ==> r.styles[j].name == ss[j].name
    ensures forall j :: 0 <= j < |ss| && ss[j].name !in RecordNames(d, ws) ==> r.styles[j] == ss[j]
    ensures NameSet(r.styles) == NameSet(ss) + RecordNames(d, ws)
    decreases |ws|
  {
    if |ws| == 0 then Decoded(ss, [])
    else
      var n := RecordLength(ws);
      var one := DecodeRecord(d, ss, ws[..n]);
      assert RecordName(d, ws[..n]) == RecordName(d, ws);
      var rest := DecodeWords(d, one.styles, ws[n..]);
      ComposeDecoded(ss, one.styles, rest.styles, RecordName(d, ws), RecordNames(d, ws[n..]));
      Decoded(rest.styles, one.notes + rest.notes)
  }

  /** Two updates in sequence, each keeping the names and places of the
      styles before it and leaving alone those whose names it does not
      carry, do the same for the names the two carry together. */
  lemma ComposeDecoded(ss: seq<Style>, mid: seq<Style>, out: seq<Style>, name: string, names: set<string>)
    requires |mid| >= |ss| && (forall j :: 0 <= j < |ss| ==> mid[j].name == ss[j].name)
    requires forall j :: 0 <= j < |ss| && ss[j].name != name ==> mid[j] == ss[j]
    requires NameSet(mid) == NameSet(ss) + {name}
    requires |out| >= |mid| && (forall j :: 0 <= j < |mid| ==> out[j].name == mid[j].name)
    requires forall j :: 0 <= j < |mid| && mid[j].name !in names ==> out[j] == mid[j]
    requires NameSet(out) == NameSet(mid) + names
    ensures |out| >= |ss|
    ensures forall j :: 0 <= j < |ss| ==> out[j].name == ss[j].name
    ensures forall j :: 0 <= j < |ss| && ss[j].name !in {name} + names ==> out[j] == ss[j]
    ensures NameSet(out) == NameSet(ss) + ({name} + names)
  {
  }

  /** `mystyle_get_property`. An absent property, or one with a version
      other than 1.2, leaves every style untouched (the latter with a
      warning); otherwise the records are decoded in order. */
  function MystyleGetProperty(d: Display, ss: seq<Style>, prop: Option<Property>): (r: Decoded)
    requires prop.Some? && prop.value.version == Version ==> Framed(prop.value.data)
    ensures prop.None? ==> r == Decoded(ss, [])
    ensures prop.Some? && prop.value.version != Version ==> r == Decoded(ss, [UnknownVersion(prop.value.version)])
    ensures prop.Some? && prop.value.version == Version ==>
              && NameSet(r.styles) == NameSet(ss) + RecordNames(d, prop.value.data)
              && r == DecodeWords(d, ss, prop.value.data)
  {
    match prop
    case None => Decoded(ss, [])
    case Some(p) =>
      if p.version != Version then Decoded(ss, [UnknownVersion(p.version)])
      else DecodeWords(d, ss, p.data)
  }
}
