/** The style property writer (`mystyle_set_property`): every style becomes
    a record of 16 header words followed by four words per gradient point,
    and the records are laid end to end in list order. */
module StyleWriter {
  import opened StyleModel
  import opened PointSlots
  import opened SeqFacts

  /** The property version, `(1 << 8) + 2`, read as 1.2. */
  const Version: PropWord := 0x102

  /** Words before the gradient points (9 + 7). */
  const HeaderSize: nat := 16

  /** Words per gradient point: the colour three times (twice for older
      readers), then the scaled offset. */
  const PointSize: nat := 4

  /** Every style's gradient can be read by the writer. */
  predicate AllReadable(ss: seq<Style>) {
    forall j :: 0 <= j < |ss| ==> GradientReadable(ss[j].gradient)
  }

  /** The size of one style's record. */
  function RecordWords(s: Style): nat {
    16 + 4 * Points(s.gradient)
  }

  /** The size of the whole property: the sum of the record sizes. */
  function TotalWords(ss: seq<Style>): nat {
    if |ss| == 0 then 0 else RecordWords(ss[0]) + TotalWords(ss[1..])
  }

  /** The 16 header slots, in order: set flags, the name's atom, text style,
      the font name's atom, foreground and background colours, relief
      foreground and background, texture type, max colours, pixmap, mask,
      tint, alpha, a reserved zero, and the gradient point count. */
  function Header(a: Atoms, s: Style): (ws: seq<PropWord>)
    ensures |ws| == HeaderSize
  {
    [s.setFlags, a.intern(s.name), s.textStyle, a.intern(s.font),
     s.fore, s.back, s.reliefFore, s.reliefBack, s.textureType,
     s.maxColors, s.pix, s.mask, s.tint, s.alpha, 0, s.gradient.npoints]
  }

  /** Header slots 0 and 2: set flags and text style. */
  lemma HeaderFlags(a: Atoms, s: Style)
    ensures var h := Header(a, s);
            h[0] == s.setFlags && h[2] == s.textStyle
  {
  }

  /** Header slots 1 and 3: the atoms of the name and the font name. */
  lemma HeaderAtoms(a: Atoms, s: Style)
    ensures var h := Header(a, s);
            h[1] == a.intern(s.name) && h[3] == a.intern(s.font)
  {
  }

  /** Header slots 4-7: the four colours. */
  lemma HeaderColours(a: Atoms, s: Style)
    ensures var h := Header(a, s);
            h[4] == s.fore && h[5] == s.back && h[6] == s.reliefFore && h[7] == s.reliefBack
  {
  }

  /** Header slots 8-11: texture type, max colours, pixmap, mask. */
  lemma HeaderIcon(a: Atoms, s: Style)
    ensures var h := Header(a, s);
            h[8] == s.textureType && h[9] == s.maxColors && h[10] == s.pix && h[11] == s.mask
  {
  }

  /** Header slots 12-15: tint, alpha, the reserved zero, point count. */
  lemma HeaderTail(a: Atoms, s: Style)
    ensures var h := Header(a, s);
            h[12] == s.tint && h[13] == s.alpha && h[14] == 0 && h[15] == s.gradient.npoints
  {
  }

  /** The words of the first `k` gradient points of `g`. */
  function PointWords(g: Gradient, k: nat): (ws: seq<PropWord>)
    requires GradientReadable(g) && k <= Points(g)
    ensures |ws| == 4 * k
  {
    Interleave(g.colors, g.offsets, k)
  }

  /** One style's record. */
  function EncodeStyle(a: Atoms, s: Style): (ws: seq<PropWord>)
    requires GradientReadable(s.gradient)
    ensures |ws| == RecordWords(s)
  {
    Header(a, s) + PointWords(s.gradient, Points(s.gradient))
  }

  /** The property contents: the records of all styles, in list order. */
  function Encode(a: Atoms, ss: seq<Style>): (ws: seq<PropWord>)
    requires AllReadable(ss)
    ensures |ws| == TotalWords(ss)
  {
    if |ss| == 0 then [] else EncodeStyle(a, ss[0]) + Encode(a, ss[1..])
  }

  lemma AllReadableAppend(xs: seq<Style>, ys: seq<Style>)
    requires AllReadable(xs) && AllReadable(ys)
    ensures AllReadable(xs + ys)
  {
  }

  /** Encoding distributes over concatenation of style lists. */
  lemma {:induction false} EncodeAppend(a: Atoms, xs: seq<Style>, ys: seq<Style>)
    requires AllReadable(xs) && AllReadable(ys)
    ensures AllReadable(xs + ys)
    ensures Encode(a, xs + ys) == Encode(a, xs) + Encode(a, ys)
    ensures TotalWords(xs + ys) == TotalWords(xs) + TotalWords(ys)
    decreases |xs|
  {
    AllReadableAppend(xs, ys);
    if |xs| == 0 {
      assert xs + ys == ys;
    } else {
      ConsAppend(xs, ys);
      EncodeAppend(a, xs[1..], ys);
      AppendAssoc(EncodeStyle(a, xs[0]), Encode(a, xs[1..]), Encode(a, ys));
    }
  }

  /** The size of a prefix of the styles never exceeds the whole. */
  lemma {:induction false} TotalPrefix(ss: seq<Style>, j: nat)
    requires j <= |ss|
    ensures TotalWords(ss[..j]) <= TotalWords(ss)
  {
    if j > 0 {
      assert ss[..j][1..] == ss[1..][..j - 1];
      TotalPrefix(ss[1..], j - 1);
    }
  }

  /** Where record `j` starts: the size of the records before it. */
  function RecordStart(ss: seq<Style>, j: nat): nat
    requires j <= |ss|
  {
    TotalWords(ss[..j])
  }

  /** Record `j` sits in the property exactly at its start, with its own
      header and gradient points, and the next record starts
      16 + 4 * npoints words later. */
  lemma RecordAt(a: Atoms, ss: seq<Style>, j: nat)
    requires AllReadable(ss) && j < |ss|
    ensures RecordStart(ss, j + 1) == RecordStart(ss, j) + RecordWords(ss[j])
    ensures RecordStart(ss, j + 1) <= TotalWords(ss)
    ensures Encode(a, ss)[RecordStart(ss, j) .. RecordStart(ss, j + 1)] == EncodeStyle(a, ss[j])
  {
    NextRecord(a, ss, j);
    var pre := ss[..j + 1];
    SplitAt(ss, j + 1);
    EncodeAppend(a, pre, ss[j + 1..]);
    PrefixOfAppend(Encode(a, pre), Encode(a, ss[j + 1..]));
  }

  /** Slot 15 of each record holds its style's gradient point count. */
  lemma RecordCountAt(a: Atoms, ss: seq<Style>, j: nat)
    requires AllReadable(ss) && j < |ss|
    ensures RecordStart(ss, j) + 15 < TotalWords(ss)
    ensures Encode(a, ss)[RecordStart(ss, j) + 15] == ss[j].gradient.npoints
  {
    RecordAt(a, ss, j);
    var rec := EncodeStyle(a, ss[j]);
    HeaderTail(a, ss[j]);
    assert Encode(a, ss)[RecordStart(ss, j) + 15] == rec[15];
  }

  /** `mystyle_set_property`: sum the record sizes, allocate that many
      slots, fill them record by record, and tag the property with the
      version. The writer fills exactly the slots it counted. */
  method MystyleSetProperty(a: Atoms, styles: seq<Style>) returns (prop: seq<PropWord>, version: PropWord)
    requires AllReadable(styles)
    ensures |prop| == TotalWords(styles)
    ensures prop == Encode(a, styles)
    ensures version == Version
  {
    var nelements := CountWords(styles);
    prop := seq(nelements, _ => 0);
    var i := 0;
    var j := 0;
    while j < |styles|
      invariant 0 <= j <= |styles|
      invariant |prop| == nelements
      invariant i == TotalWords(styles[..j]) <= nelements
      invariant prop[..i] == Encode(a, styles[..j])
    {
      var s := styles[j];
      ghost var before := Encode(a, styles[..j]);
      NextRecord(a, styles, j);
      prop, i := WriteRecord(a, s, prop, i, before);
      j := j + 1;
    }
    assert styles[..j] == styles;
    assert prop[..i] == prop;
    version := Version;
  }

  /** Extending the encoded prefix by one style appends its record, which
      fits within the whole property. */
  lemma NextRecord(a: Atoms, ss: seq<Style>, j: nat)
    requires AllReadable(ss) && j < |ss|
    ensures Encode(a, ss[..j + 1]) == Encode(a, ss[..j]) + EncodeStyle(a, ss[j])
    ensures TotalWords(ss[..j]) + RecordWords(ss[j]) <= TotalWords(ss)
  {
    var s := ss[j];
    assert AllReadable([s]);
    EncodeAppend(a, ss[..j], [s]);
    PrefixStep(ss, j);
    assert Encode(a, [s]) == EncodeStyle(a, s) by {
      assert [s][1..] == [];
    }
    TotalPrefix(ss, j + 1);
  }

  /** The size of a prefix grows by the size of the next record. */
  lemma {:induction false} TotalWordsStep(ss: seq<Style>, j: nat)
    requires j < |ss|
    ensures TotalWords(ss[..j + 1]) == TotalWords(ss[..j]) + RecordWords(ss[j])
    decreases j
  {
    if j > 0 {
      assert ss[..j + 1][1..] == ss[1..][..j];
      assert ss[..j][1..] == ss[1..][..j - 1];
      TotalWordsStep(ss[1..], j - 1);
    }
  }

  /** The counting loop of the writer, over the list from its head. */
  method CountWords(styles: seq<Style>) returns (n: nat)
    ensures n == TotalWords(styles)
  {
    n := 0;
    var j := 0;
    while j < |styles|
      invariant 0 <= j <= |styles|
      invariant n == TotalWords(styles[..j])
    {
      TotalWordsStep(styles, j);
      n := n + 9;
      n := n + 7 + Points(styles[j].gradient) * 4;
      j := j + 1;
    }
    assert styles[..j] == styles;
  }

  /** Stores `v` in slot `i`, the next slot after the filled prefix. */
  function Put(buf: seq<PropWord>, i: nat, v: PropWord): (r: seq<PropWord>)
    requires i < |buf|
    ensures |r| == |buf|
    ensures r[..i + 1] == buf[..i] + [v]
  {
    assert buf[i := v][..i + 1] == buf[..i] + [v];
    buf[i := v]
  }

  /** Writes one record into `buf` from slot `i0`: the header words, then
      four slots per gradient point. */
  method WriteRecord(a: Atoms, s: Style, buf0: seq<PropWord>, i0: nat, ghost before: seq<PropWord>) returns (buf: seq<PropWord>, i: nat)
    requires GradientReadable(s.gradient)
    requires i0 + RecordWords(s) <= |buf0|
    requires buf0[..i0] == before
    ensures |buf| == |buf0|
    ensures i == i0 + RecordWords(s)
    ensures buf[..i] == before + EncodeStyle(a, s)
  {
    var h := Header(a, s);
    buf, i := WriteWords(buf0, i0, h, before);
    buf, i := WritePoints(s.gradient, buf, i, before + h);
    AppendAssoc(before, h, PointWords(s.gradient, Points(s.gradient)));
  }

  /** Copies the words `ws` into consecutive slots from `i0`. */
  method WriteWords(buf0: seq<PropWord>, i0: nat, ws: seq<PropWord>, ghost before: seq<PropWord>) returns (buf: seq<PropWord>, i: nat)
    requires i0 + |ws| <= |buf0|
    requires buf0[..i0] == before
    ensures |buf| == |buf0|
    ensures i == i0 + |ws|
    ensures buf[..i] == before + ws
  {
    buf, i := buf0, i0;
    var m := 0;
    while m < |ws|
      invariant 0 <= m <= |ws|
      invariant |buf| == |buf0|
      invariant i == i0 + m
      invariant buf[..i] == before + ws[..m]
    {
      buf := Put(buf, i, ws[m]);
      PrefixStep(ws, m);
      AppendAssoc(before, ws[..m], [ws[m]]);
      i := i + 1;
      m := m + 1;
    }
    assert ws[..m] == ws;
  }

  /** The gradient loop: four slots per point, colour three times and then
      the offset. */
  method WritePoints(g: Gradient, buf0: seq<PropWord>, i0: nat, ghost before: seq<PropWord>) returns (buf: seq<PropWord>, i: nat)
    requires GradientReadable(g)
    requires i0 + 4 * Points(g) <= |buf0|
    requires buf0[..i0] == before
    ensures |buf| == |buf0|
    ensures i == i0 + 4 * Points(g)
    ensures buf[..i] == before + PointWords(g, Points(g))
  {
    buf, i := buf0, i0;
    var k := 0;
    while k < Points(g)
      invariant 0 <= k <= Points(g)
      invariant |buf| == |buf0|
      invariant i == i0 + 4 * k
      invariant buf[..i] == before + PointWords(g, k)
    {
      var c := g.colors[k];
      var o := g.offsets[k];
      assert PointWords(g, k + 1) == PointWords(g, k) + [c, c, c, o];
      buf, i := WriteWords(buf, i, [c, c, c, o], before + PointWords(g, k));
      AppendAssoc(before, PointWords(g, k), [c, c, c, o]);
      k := k + 1;
    }
  }
}
