/** The diagnostic output, as line records rather than formatted text, and
    the attribution of a code address shared by the frame walker and the
    call backtrace. */
module Report {
  import opened Machine
  import opened Resolver

  /** How a code address was attributed: a resolved symbol and offset, the
      text of `__backtrace_symbols`, the "[some silly code]" placeholder, or
      nothing at all. */
  datatype Resolution =
    | Symbol(name: nat, offset: int)
    | Described(text: string)
    | SillyCode
    | Unnamed

  /** One record per line (or line fragment) written to stderr. */
  datatype Line =
    | DebugBanner                                          // "Printing Debug Information :"
    | LibrariesHeader                                      // " Loaded dynamic libraries :"
    | Library(base: Word, path: string)
    | SignalContext(ebp: Word, esp: Word, eip: Word)       // the register dump
    | StackHeader                                          // " Stack Backtrace :"
    | CorruptedStack                                       // the corrupted-stack message
    | FailedAt(eip: Word, where: Resolution)               // "all I can say is that we failed at ..."
    | FrameColumns                                         // "FRAME NEXT FRAME FUNCTION"
    | EntryFrame(frame: Word, next: Word, sp: Word)        // a frame printed as "[program entry point]"
    | Frame(frame: Word, next: Word, sp: Word, where: Resolution)
    | CallHeader                                           // " Call Backtrace :"
    | CallColumns                                          // " CALL#: ADDRESS: FUNCTION:"
    | Call(index: nat, addr: Word, where: Resolution)
    | SegfaultTrapped                                      // "Segmentation Fault trapped"
    | InProgram(name: string)                              // " in <MyName>."
    | NonCritical(signum: int, name: string)
    | Guidance(text: string)

  /** The symbol sources a line consults: the resolver's inputs and the
      `__backtrace_symbols` oracle, which the build may lack. */
  datatype Namer = Namer(sym: Symbols, execinfo: bool, describe: Word -> string)

  predicate NamerReadable(n: Namer) {
    Readable(n.sym)
  }

  /** `__backtrace_symbols` text is printed unless its first character is '['. */
  predicate Printable(text: string) {
    |text| == 0 || text[0] != '['
  }

  /** Attribution of a frame or call line from a lookup of address `at`:
      the symbol when the lookup named one, else the `__backtrace_symbols`
      text when the build has it and it is printable, else the placeholder. */
  function Attribute(n: Namer, l: Lookup, at: Word): (r: Resolution)
    ensures l.name.StrAt? ==> r == Symbol(l.name.offset, l.offset)
    ensures l.name.Unknown? && n.execinfo && Printable(n.describe(at)) ==> r == Described(n.describe(at))
    ensures l.name.Unknown? && !(n.execinfo && Printable(n.describe(at))) ==> r == SillyCode
    ensures r != Unnamed
  {
    if l.name.StrAt? then Symbol(l.name.offset, l.offset)
    else if n.execinfo && Printable(n.describe(at)) then Described(n.describe(at))
    else SillyCode
  }
}
