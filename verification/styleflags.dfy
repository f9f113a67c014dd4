/** The flag rewriting the style property reader does on each record's set
    flags: the gradient flag moves to the user flags, and the
    missing-pixmap rule may drop the inherited pixmap flags. All of it is
    stated on single flag words. */
module StyleFlags {
  import opened StyleModel

  /** The inherited flags after the gradient flag has moved to the user
      flags. */
  function InheritAfterGradient(m: FlagMasks, flags: PropWord): PropWord {
    Without(flags, m.backGradient)
  }

  /** The user flags after the gradient flag has moved there. */
  function UserAfterGradient(m: FlagMasks, flags: PropWord): PropWord {
    Only(flags, m.backGradient)
  }

  /** What the missing-pixmap rule does to a style. */
  datatype PixmapAction = Keep | DropPixmap | DropTransPixmap

  /** The rule, given whether the pixmap is missing (no usable pixmap and a
      texture type other than 129): an inherited back pixmap is dropped;
      failing that, an inherited transparent pixmap is dropped. */
  function RuleFor(m: FlagMasks, missing: bool, flags: PropWord): PixmapAction {
    var inherit := InheritAfterGradient(m, flags);
    if !missing then Keep
    else if Has(inherit, m.backPixmap) then DropPixmap
    else if Has(inherit, m.backTransPixmap) then DropTransPixmap
    else Keep
  }

  /** The flags the rule clears from the inherited ones: none when it
      keeps, both pixmap flags when it drops the back pixmap, the
      transparent pixmap flag alone when it drops that. */
  function Dropped(m: FlagMasks, action: PixmapAction): PropWord {
    match action
    case Keep => 0
    case DropPixmap => m.backPixmap | m.backTransPixmap
    case DropTransPixmap => m.backTransPixmap
  }

  /** The inherited flags once the rule has run. */
  function InheritAfterRule(m: FlagMasks, missing: bool, flags: PropWord): PropWord {
    InheritAfterGradient(m, flags) & !Dropped(m, RuleFor(m, missing, flags))
  }

  /** The set flags recomputed at the end of the record: the user flags
      joined with the inherited flags the rule left. */
  function SetAfterRule(m: FlagMasks, missing: bool, flags: PropWord): PropWord {
    Join(UserAfterGradient(m, flags), InheritAfterRule(m, missing, flags))
  }

  /** The rule acts on the pixmap flags as written: nothing is dropped
      unless the pixmap is missing, a written back pixmap is dropped, a
      written transparent pixmap is dropped when there is no back pixmap,
      and with neither written nothing is dropped. */
  lemma RuleSeesWrittenFlags(m: FlagMasks, missing: bool, flags: PropWord)
    requires GradientApart(m)
    ensures !missing ==> RuleFor(m, missing, flags) == Keep
    ensures missing && Has(flags, m.backPixmap) ==> RuleFor(m, missing, flags) == DropPixmap
    ensures missing && !Has(flags, m.backPixmap) && Has(flags, m.backTransPixmap) ==>
              RuleFor(m, missing, flags) == DropTransPixmap
    ensures !Has(flags, m.backPixmap) && !Has(flags, m.backTransPixmap) ==> RuleFor(m, missing, flags) == Keep
  {
    WithoutKeeps(flags, m.backGradient, m.backPixmap);
    WithoutKeeps(flags, m.backGradient, m.backTransPixmap);
  }

  /** The rule never clears the gradient flag. */
  lemma DropSparesGradient(m: FlagMasks, action: PixmapAction)
    requires GradientApart(m)
    ensures m.backGradient & Dropped(m, action) == 0
  {
    match action
    case Keep => ApartFromNothing(m.backGradient);
    case DropPixmap => ApartFromUnion(m.backGradient, m.backPixmap, m.backTransPixmap);
    case DropTransPixmap =>
  }

  /** The recomputed set flags are the written ones less exactly the flags
      the rule dropped: the gradient flag moves out and back again. */
  lemma SetFlagsAfterRule(m: FlagMasks, missing: bool, flags: PropWord)
    requires GradientApart(m)
    ensures SetAfterRule(m, missing, flags) == flags & !Dropped(m, RuleFor(m, missing, flags))
  {
    var action := RuleFor(m, missing, flags);
    SetAfterRuleIs(m, missing, flags);
    DropSparesGradient(m, action);
    SplitRejoins(m.backGradient, flags, Dropped(m, action));
  }

  /** With nothing dropped the recomputed set flags are the written ones. */
  lemma KeepRestores(m: FlagMasks, missing: bool, flags: PropWord)
    requires GradientApart(m) && RuleFor(m, missing, flags) == Keep
    ensures SetAfterRule(m, missing, flags) == flags
  {
    SetFlagsAfterRule(m, missing, flags);
    ClearNothing(flags);
  }

  /** With nothing dropped the inherited flags are all the written flags
      but the gradient flag. */
  lemma KeepInherits(m: FlagMasks, missing: bool, flags: PropWord)
    requires RuleFor(m, missing, flags) == Keep
    ensures InheritAfterRule(m, missing, flags) == InheritAfterGradient(m, flags)
  {
    ClearNothing(InheritAfterGradient(m, flags));
  }

  /** A dropped back pixmap clears exactly the two pixmap flags from the
      written ones. */
  lemma DropPixmapClears(m: FlagMasks, missing: bool, flags: PropWord)
    requires GradientApart(m) && RuleFor(m, missing, flags) == DropPixmap
    ensures SetAfterRule(m, missing, flags) == flags & !(m.backPixmap | m.backTransPixmap)
  {
    SetFlagsAfterRule(m, missing, flags);
  }

  /** A dropped transparent pixmap clears exactly its own flag from the
      written ones. */
  lemma DropTransPixmapClears(m: FlagMasks, missing: bool, flags: PropWord)
    requires GradientApart(m) && RuleFor(m, missing, flags) == DropTransPixmap
    ensures SetAfterRule(m, missing, flags) == flags & !m.backTransPixmap
  {
    SetFlagsAfterRule(m, missing, flags);
  }

  /** The inherited flags are the written ones less the gradient flag and
      less the flags the rule drops. */
  lemma InheritAfterRuleIs(m: FlagMasks, missing: bool, flags: PropWord)
    ensures InheritAfterRule(m, missing, flags) == Without(flags, m.backGradient) & !Dropped(m, RuleFor(m, missing, flags))
  {
  }

  /** The set flags rejoin the gradient flag to the inherited flags. */
  lemma SetAfterRuleIs(m: FlagMasks, missing: bool, flags: PropWord)
    ensures SetAfterRule(m, missing, flags) == Rejoin(m.backGradient, flags, Dropped(m, RuleFor(m, missing, flags)))
  {
    InheritAfterRuleIs(m, missing, flags);
    RejoinJoins(m.backGradient, flags, Dropped(m, RuleFor(m, missing, flags)));
  }

  /** A dropped back pixmap leaves as inherited flags the written ones
      less the gradient flag and both pixmap flags. */
  lemma DropPixmapInherits(m: FlagMasks, missing: bool, flags: PropWord)
    requires RuleFor(m, missing, flags) == DropPixmap
    ensures InheritAfterRule(m, missing, flags) == flags & !(m.backGradient | (m.backPixmap | m.backTransPixmap))
  {
    WithoutClears(flags, m.backGradient);
    ClearTwice(flags, m.backGradient, m.backPixmap | m.backTransPixmap);
  }

  /** A dropped transparent pixmap leaves as inherited flags the written
      ones less the gradient flag and its own flag. */
  lemma DropTransPixmapInherits(m: FlagMasks, missing: bool, flags: PropWord)
    requires RuleFor(m, missing, flags) == DropTransPixmap
    ensures InheritAfterRule(m, missing, flags) == flags & !(m.backGradient | m.backTransPixmap)
  {
    WithoutClears(flags, m.backGradient);
    ClearTwice(flags, m.backGradient, m.backTransPixmap);
  }

  /** The recomputed set flags hold neither pixmap flag once a back pixmap
      is dropped. */
  lemma DroppedPixmapGone(m: FlagMasks, missing: bool, flags: PropWord)
    requires GradientApart(m) && RuleFor(m, missing, flags) == DropPixmap
    ensures !Has(SetAfterRule(m, missing, flags), m.backPixmap)
    ensures !Has(SetAfterRule(m, missing, flags), m.backTransPixmap)
  {
    ClearBothRemoves(flags, m.backPixmap, m.backTransPixmap);
    DropPixmapClears(m, missing, flags);
  }

  /** The recomputed set flags hold no transparent pixmap flag once that is
      dropped. */
  lemma DroppedTransPixmapGone(m: FlagMasks, missing: bool, flags: PropWord)
    requires GradientApart(m) && RuleFor(m, missing, flags) == DropTransPixmap
    ensures !Has(SetAfterRule(m, missing, flags), m.backTransPixmap)
  {
    DropTransPixmapClears(m, missing, flags);
    ClearRemoves(flags, m.backTransPixmap);
  }

  /** A written gradient flag ends up in the user flags and nowhere in the
      inherited ones; an unwritten one leaves the user flags empty. */
  lemma GradientMoved(m: FlagMasks, missing: bool, flags: PropWord)
    ensures Has(flags, m.backGradient) ==> UserAfterGradient(m, flags) == m.backGradient
    ensures !Has(flags, m.backGradient) ==> UserAfterGradient(m, flags) == 0
    ensures !Has(InheritAfterRule(m, missing, flags), m.backGradient)
  {
    var g := m.backGradient;
    if Has(flags, g) {
      OnlyPresent(flags, g);
    } else {
      OnlyAbsent(flags, g);
    }
    WithoutRemoves(flags, g);
    ClearStaysClear(Without(flags, g), Dropped(m, RuleFor(m, missing, flags)), g);
  }
}
