/** The MyStyle records exchanged through the style property, and the X
    server services the property code relies on, as oracles. */
module StyleModel {
  /** One `unsigned long` property slot. */
  type PropWord = bv64

  /** The style flag bits the property code tests (`F_FONT`,
      `F_BACKGRADIENT`, `F_BACKPIXMAP`, `F_BACKTRANSPIXMAP`). Their values
      live in mystyle.h, which is not part of this model; they are a
      parameter, constrained to be distinct single bits. */
  datatype FlagMasks = FlagMasks(font: PropWord, backGradient: PropWord, backPixmap: PropWord, backTransPixmap: PropWord)

  predicate SingleBit(m: PropWord) {
    m != 0 && m & (m - 1) == 0
  }

  /** Each flag is one bit, and no two flags share it. */
  predicate ValidMasks(f: FlagMasks) {
    && SingleBit(f.font) && SingleBit(f.backGradient) && SingleBit(f.backPixmap) && SingleBit(f.backTransPixmap)
    && f.font & f.backGradient == 0 && f.font & f.backPixmap == 0 && f.font & f.backTransPixmap == 0
    && f.backGradient & f.backPixmap == 0 && f.backGradient & f.backTransPixmap == 0
    && f.backPixmap & f.backTransPixmap == 0
  }

  /** The C test `flags & m`. */
  predicate Has(flags: PropWord, m: PropWord) {
    flags & m != 0
  }

  /** A single-bit flag that `&` finds set is wholly present. */
  lemma SingleBitPresent(flags: PropWord, m: PropWord)
    requires SingleBit(m) && Has(flags, m)
    ensures flags & m == m
  {
  }

  /** `flags` without the flag `b`, when it has it. */
  function Without(flags: PropWord, b: PropWord): PropWord {
    if Has(flags, b) then flags & !b else flags
  }

  /** The flag `b` alone when `flags` has it, else nothing. */
  function Only(flags: PropWord, b: PropWord): PropWord {
    if Has(flags, b) then b else 0
  }

  lemma WithoutPresent(flags: PropWord, b: PropWord)
    requires Has(flags, b)
    ensures Without(flags, b) == flags & !b
  {
  }

  lemma WithoutAbsent(flags: PropWord, b: PropWord)
    requires !Has(flags, b)
    ensures Without(flags, b) == flags
  {
  }

  lemma OnlyPresent(flags: PropWord, b: PropWord)
    requires Has(flags, b)
    ensures Only(flags, b) == b
  {
  }

  lemma OnlyAbsent(flags: PropWord, b: PropWord)
    requires !Has(flags, b)
    ensures Only(flags, b) == 0
  {
  }

  /** The flag `b` split out of `flags`, the rest cleared of bits `c`, and
      the two joined again. */
  /** Two flag words joined (`|`). */
  function Join(a: PropWord, b: PropWord): PropWord {
    a | b
  }

  function Rejoin(b: PropWord, flags: PropWord, c: PropWord): PropWord {
    Only(flags, b) | (Without(flags, b) & !c)
  }

  /** Rejoining is the single flag `b`, if present, joined with the other
      flags less `c`. */
  lemma RejoinJoins(b: PropWord, flags: PropWord, c: PropWord)
    ensures Rejoin(b, flags, c) == Join(Only(flags, b), Without(flags, b) & !c)
  {
  }

  lemma RejoinPresent(b: PropWord, flags: PropWord, c: PropWord)
    requires Has(flags, b)
    ensures Rejoin(b, flags, c) == b | ((flags & !b) & !c)
  {
  }

  lemma RejoinAbsent(b: PropWord, flags: PropWord, c: PropWord)
    requires !Has(flags, b)
    ensures Rejoin(b, flags, c) == 0 | (flags & !c)
  {
  }

  /** Splitting a single-bit flag out, clearing bits `c` that spare it from
      the rest, and joining the two again is clearing `c`. */
  lemma SplitRejoins(b: PropWord, flags: PropWord, c: PropWord)
    requires SingleBit(b) && b & c == 0
    ensures Rejoin(b, flags, c) == flags & !c
  {
    if Has(flags, b) {
      SingleBitPresent(flags, b);
      RejoinPresent(b, flags, c);
      PresentRejoins(b, flags, c);
    } else {
      RejoinAbsent(b, flags, c);
      AbsentRejoins(flags, c);
    }
  }

  lemma PresentRejoins(b: PropWord, flags: PropWord, c: PropWord)
    requires flags & b == b && b & c == 0
    ensures b | ((flags & !b) & !c) == flags & !c
  {
  }

  lemma AbsentRejoins(flags: PropWord, c: PropWord)
    ensures 0 | (flags & !c) == flags & !c
  {
  }

  /** Taking a flag out is clearing its bits, whether it was there or not. */
  lemma WithoutClears(flags: PropWord, b: PropWord)
    ensures Without(flags, b) == flags & !b
  {
  }

  /** Clearing two sets of bits one after the other clears their union. */
  lemma ClearTwice(flags: PropWord, a: PropWord, c: PropWord)
    ensures (flags & !a) & !c == flags & !(a | c)
  {
  }

  lemma ClearNothing(flags: PropWord)
    ensures flags & !0 == flags
  {
  }

  /** Taking `b` out leaves every flag apart from it as it was. */
  lemma WithoutKeeps(flags: PropWord, b: PropWord, p: PropWord)
    requires b & p == 0
    ensures Has(Without(flags, b), p) == Has(flags, p)
  {
    if Has(flags, b) {
      WithoutPresent(flags, b);
      ClearKeepsOthers(flags, b, p);
    } else {
      WithoutAbsent(flags, b);
    }
  }

  /** Taking `b` out leaves it gone. */
  lemma WithoutRemoves(flags: PropWord, b: PropWord)
    ensures !Has(Without(flags, b), b)
  {
    if Has(flags, b) {
      WithoutPresent(flags, b);
      ClearRemoves(flags, b);
    } else {
      WithoutAbsent(flags, b);
    }
  }

  /** Clearing bits `c` does not affect a flag `p` disjoint from them. */
  lemma ClearKeepsOthers(flags: PropWord, c: PropWord, p: PropWord)
    requires c & p == 0
    ensures Has(flags & !c, p) <==> Has(flags, p)
  {
  }

  /** Clearing bits `c` removes the flag `c`. */
  lemma ClearRemoves(flags: PropWord, c: PropWord)
    ensures !Has(flags & !c, c)
  {
  }

  /** Clearing two flags at once removes both. */
  lemma ClearBothRemoves(flags: PropWord, p: PropWord, q: PropWord)
    ensures !Has(flags & !(p | q), p)
    ensures !Has(flags & !(p | q), q)
  {
  }

  /** Clearing bits never sets a flag that was absent. */
  lemma ClearStaysClear(flags: PropWord, c: PropWord, p: PropWord)
    requires !Has(flags, p)
    ensures !Has(flags & !c, p)
  {
  }

  lemma ApartFromNothing(g: PropWord)
    ensures g & 0 == 0
  {
  }

  /** A flag apart from two flags is apart from their union. */
  lemma ApartFromUnion(g: PropWord, p: PropWord, q: PropWord)
    requires g & p == 0 && g & q == 0
    ensures g & (p | q) == 0
  {
  }

  /** The gradient flag is a single bit apart from both pixmap flags: what
      the reader's flag rewriting relies on. */
  predicate GradientApart(f: FlagMasks) {
    && SingleBit(f.backGradient)
    && f.backGradient & f.backPixmap == 0 && f.backGradient & f.backTransPixmap == 0
  }

  /** `XInternAtom` and `XGetAtomName` as an oracle pair. */
  datatype Atoms = Atoms(intern: string -> PropWord, nameOf: PropWord -> string)

  /** Interning is injective: the name of an interned atom is the name. */
  ghost predicate AtomsInverse(a: Atoms) {
    forall s: string :: a.nameOf(a.intern(s)) == s
  }

  /** The texture type that the missing-pixmap rule leaves alone. */
  const ExemptTexture: PropWord := 129

  /** A gradient: the point count as the property carries it, the colours
      and the offsets (each offset is the scaled word `offset * 0x1000000`,
      kept opaque), and the gradient type. The property does not carry the
      type: the reader derives it from the texture type. */
  datatype Gradient = Gradient(npoints: PropWord, colors: seq<PropWord>, offsets: seq<PropWord>, kind: PropWord)

  /** The point count as the C `int` the encoder loops over. */
  function Points(g: Gradient): nat {
    g.npoints as int
  }

  /** The encoder can read every point: the count is a non-negative `int`
      and both arrays hold at least that many entries. */
  predicate GradientReadable(g: Gradient) {
    && g.npoints < 0x8000_0000
    && Points(g) <= |g.colors|
    && Points(g) <= |g.offsets|
  }

  /** The fields of a `MyStyle` the property code reads or writes. The
      font is represented by its name; the back icon by its pixmap, mask
      and alpha handles. */
  datatype Style = Style(
    name: string,
    setFlags: PropWord,
    userFlags: PropWord,
    inheritFlags: PropWord,
    textStyle: PropWord,
    font: string,
    fore: PropWord,
    back: PropWord,
    reliefFore: PropWord,
    reliefBack: PropWord,
    textureType: PropWord,
    maxColors: PropWord,
    pix: PropWord,
    mask: PropWord,
    tint: PropWord,
    alpha: PropWord,
    gradient: Gradient)

  /** `mystyle_new_with_name`: a style with that name and every other
      field empty. */
  function NewStyle(name: string): (s: Style)
    ensures s.name == name
    ensures s.userFlags == 0 && s.inheritFlags == 0 && s.setFlags == 0
    ensures s.gradient.colors == [] && s.gradient.offsets == [] && s.gradient.kind == 0
  {
    Style(name, 0, 0, 0, 0, "", 0, 0, 0, 0, 0, 0, 0, 0, 0, 0, Gradient(0, [], [], 0))
  }

  /** The names of a style list, as a set. */
  function NameSet(ss: seq<Style>): set<string> {
    set i | 0 <= i < |ss| :: ss[i].name
  }

  /** No two styles share a name. */
  predicate DistinctNames(ss: seq<Style>) {
    forall i, j :: 0 <= i < j < |ss| ==> ss[i].name != ss[j].name
  }
}
