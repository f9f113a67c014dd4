/** The i386 frame-pointer walker (`print_my_backtrace`). Each frame stores
    the caller's saved frame pointer at `ebp` and the return address in the
    next word; the walk follows the chain through abstract memory and emits
    one line record per frame.

    The C code puts no cap on the number of frames. The model bounds the
    walk with explicit `fuel`: a walk that runs out of fuel ends with
    `OutOfFuel`, and `IncreasingChainFinishes` shows that a chain of strictly
    increasing frame addresses never does so with enough fuel. */
module StackWalker {
  import opened Machine
  import opened Resolver
  import opened Report
  import opened SeqFacts

  /** No stack frame can lie at or below this address. */
  const StackFloor: Word := 0x08074000

  /** How a walk ended: the chain left the plausible range, a read of an
      unmapped word faulted, or the model's fuel ran out. */
  datatype WalkEnd = Finished | Faulted | OutOfFuel

  datatype Walk = Walk(lines: seq<Line>, end: WalkEnd)

  /** The loop condition `ebp != NULL && ebp > 0x08074000`. */
  predicate InChain(ebp: Word) {
    ebp != NULL && ebp > StackFloor
  }

  predicate IsFrameLine(l: Line) {
    l.EntryFrame? || l.Frame?
  }

  function Last(ls: seq<Line>): Line
    requires |ls| > 0
  {
    ls[|ls| - 1]
  }

  /** The frame pointer the loop tests next: the start, or the saved frame
      pointer of the last frame printed. */
  function Resume(ebp: Word, ls: seq<Line>): Word {
    if |ls| == 0 then ebp
    else if IsFrameLine(Last(ls)) then Last(ls).next
    else NULL
  }

  /** A frame line for a frame inside the plausible range whose saved frame
      pointer is mapped and shown; it is the program entry point exactly
      when that saved frame pointer is null. */
  predicate SavedFrame(mem: Memory, l: Line) {
    && IsFrameLine(l)
    && InChain(l.frame)
    && l.frame in mem
    && l.next == mem[l.frame]
    && (l.EntryFrame? <==> l.next == NULL)
  }

  /** The lines follow the chain from frame `ebp` with return address `esp`:
      each next line is for the saved frame pointer of the previous frame
      (`ebp <- *ebp`), with the return address found in the word after it
      (`esp <- *(ebp + 1)`). */
  predicate Linked(mem: Memory, ebp: Word, esp: Word, ls: seq<Line>)
    decreases |ls|
  {
    |ls| == 0 ||
    (&& IsFrameLine(ls[0])
     && ls[0].frame == ebp && ls[0].sp == esp
     && (|ls| > 1 ==> NextWord(ebp) in mem && Linked(mem, ls[0].next, mem[NextWord(ebp)], ls[1..])))
  }

  /** Attribution of a frame that is not the program entry point: the
      return address `esp` is looked up first; only on frame 1 is `eip`
      tried when that lookup is "unknown"; the `__backtrace_symbols`
      fallback is asked about `esp`. */
  function FrameWhere(n: Namer, esp: Word, eip: Word, frameNo: nat): (r: Resolution)
    requires NamerReadable(n)
    ensures var l := FindFuncSymbol(n.sym, esp);
            l.name.StrAt? ==> r == Symbol(l.name.offset, l.offset)
    ensures var l := FindFuncSymbol(n.sym, esp);
            l.name.Unknown? && frameNo == 1 && eip != NULL ==>
              var e := FindFuncSymbol(n.sym, eip);
              e.name.StrAt? ==> r == Symbol(e.name.offset, e.offset)
    ensures var l := FindFuncSymbol(n.sym, esp);
            var e := FindFuncSymbol(n.sym, eip);
            l.name.Unknown? && (frameNo != 1 || eip == NULL || e.name.Unknown?) ==>
              r == if n.execinfo && Printable(n.describe(esp)) then Described(n.describe(esp)) else SillyCode
  {
    var l := FindFuncSymbol(n.sym, esp);
    var l' := if l.name.Unknown? && frameNo == 1 && eip != NULL then FindFuncSymbol(n.sym, eip) else l;
    Attribute(n, l', esp)
  }

  /** The main loop from frame `ebp` (numbered `frameNo`) with return
      address `esp`: print the frame, then continue from its saved frame
      pointer (`ebp <- mem[ebp]`) with the return address found in the
      word after it (`esp <- mem[ebp + 4]`). What the lines are and why
      the walk ends is stated by `WalkFramesSaved`, `WalkFramesLinked` and
      `WalkFramesEnd`. */
  function WalkFrames(n: Namer, mem: Memory, ebp: Word, esp: Word, eip: Word, frameNo: nat, fuel: nat): (w: Walk)
    requires NamerReadable(n)
    decreases fuel
  {
    if !InChain(ebp) then Walk([], Finished)
    else if fuel == 0 then Walk([], OutOfFuel)
    else if ebp !in mem then Walk([], Faulted)
    else
      var line := FrameLine(n, mem, ebp, esp, eip, frameNo);
      if NextWord(ebp) !in mem then Walk([line], Faulted)
      else
        var rest := WalkFrames(n, mem, mem[ebp], mem[NextWord(ebp)], eip, frameNo + 1, fuel - 1);
        Walk([line] + rest.lines, rest.end)
  }

  /** The line printed for the frame at `ebp`: the program entry point
      when its saved frame pointer is null, an attributed frame otherwise. */
  function FrameLine(n: Namer, mem: Memory, ebp: Word, esp: Word, eip: Word, frameNo: nat): (l: Line)
    requires NamerReadable(n) && ebp in mem
    ensures IsFrameLine(l) && l.frame == ebp && l.next == mem[ebp] && l.sp == esp
    ensures l.EntryFrame? <==> l.next == NULL
    ensures l.Frame? ==> l.where == FrameWhere(n, esp, eip, frameNo)
  {
    var next := mem[ebp];
    if next == NULL then EntryFrame(ebp, next, esp) else Frame(ebp, next, esp, FrameWhere(n, esp, eip, frameNo))
  }

  /** Whether the loop prints the frame at `ebp` and goes on to its caller. */
  predicate Steps(mem: Memory, ebp: Word, fuel: nat) {
    InChain(ebp) && fuel > 0 && ebp in mem && NextWord(ebp) in mem
  }

  /** One step of the main loop: the frame's line, then the walk from its
      saved frame pointer. */
  lemma WalkCons(n: Namer, mem: Memory, ebp: Word, esp: Word, eip: Word, frameNo: nat, fuel: nat)
    requires NamerReadable(n) && Steps(mem, ebp, fuel)
    ensures WalkFrames(n, mem, ebp, esp, eip, frameNo, fuel)
            == var rest := WalkFrames(n, mem, mem[ebp], mem[NextWord(ebp)], eip, frameNo + 1, fuel - 1);
               Walk([FrameLine(n, mem, ebp, esp, eip, frameNo)] + rest.lines, rest.end)
  {
  }

  /** A walk that does not step is over at once: no line, or the one line
      whose return-address word is unmapped. */
  lemma WalkStops(n: Namer, mem: Memory, ebp: Word, esp: Word, eip: Word, frameNo: nat, fuel: nat)
    requires NamerReadable(n) && !Steps(mem, ebp, fuel)
    ensures WalkFrames(n, mem, ebp, esp, eip, frameNo, fuel)
            == if !InChain(ebp) then Walk([], Finished)
               else if fuel == 0 then Walk([], OutOfFuel)
               else if ebp !in mem then Walk([], Faulted)
               else Walk([FrameLine(n, mem, ebp, esp, eip, frameNo)], Faulted)
  {
  }

  /** Every line of the walk is a frame line for a frame inside the
      plausible range whose saved frame pointer is mapped and shown, and is
      the program entry point exactly when that pointer is null; the walk
      prints at most one line per unit of fuel, and uses all of it when it
      runs out. */
  lemma {:induction false} WalkFramesSaved(n: Namer, mem: Memory, ebp: Word, esp: Word, eip: Word, frameNo: nat, fuel: nat)
    requires NamerReadable(n)
    ensures var w := WalkFrames(n, mem, ebp, esp, eip, frameNo, fuel);
            && |w.lines| <= fuel
            && (w.end == OutOfFuel ==> |w.lines| == fuel)
            && forall k :: 0 <= k < |w.lines| ==> SavedFrame(mem, w.lines[k])
    decreases fuel
  {
    if Steps(mem, ebp, fuel) {
      WalkCons(n, mem, ebp, esp, eip, frameNo, fuel);
      var line := FrameLine(n, mem, ebp, esp, eip, frameNo);
      var rest := WalkFrames(n, mem, mem[ebp], mem[NextWord(ebp)], eip, frameNo + 1, fuel - 1);
      WalkFramesSaved(n, mem, mem[ebp], mem[NextWord(ebp)], eip, frameNo + 1, fuel - 1);
      var ls := [line] + rest.lines;
      forall k | 0 <= k < |ls| ensures SavedFrame(mem, ls[k]) {
        if k > 0 {
          assert ls[k] == rest.lines[k - 1];
        }
      }
    } else {
      WalkStops(n, mem, ebp, esp, eip, frameNo, fuel);
    }
  }

  /** Consecutive lines follow the chain: the first is for frame `ebp` with
      return address `esp`, and each next line is for the saved frame
      pointer of the one before, with the return address from the word
      after that frame's saved pointer. */
  lemma {:induction false} WalkFramesLinked(n: Namer, mem: Memory, ebp: Word, esp: Word, eip: Word, frameNo: nat, fuel: nat)
    requires NamerReadable(n)
    ensures Linked(mem, ebp, esp, WalkFrames(n, mem, ebp, esp, eip, frameNo, fuel).lines)
    decreases fuel
  {
    if Steps(mem, ebp, fuel) {
      WalkCons(n, mem, ebp, esp, eip, frameNo, fuel);
      var line := FrameLine(n, mem, ebp, esp, eip, frameNo);
      var rest := WalkFrames(n, mem, mem[ebp], mem[NextWord(ebp)], eip, frameNo + 1, fuel - 1);
      WalkFramesLinked(n, mem, mem[ebp], mem[NextWord(ebp)], eip, frameNo + 1, fuel - 1);
      ConsAppend([line], rest.lines);
    } else {
      WalkStops(n, mem, ebp, esp, eip, frameNo, fuel);
    }
  }

  /** Why the walk ended: a finished walk stopped at a frame pointer outside
      the plausible range (the start, or the saved pointer of the last
      frame); a faulted walk stopped at an unmapped frame, or at a last
      frame whose return-address word or saved frame is unmapped. */
  lemma {:induction false} WalkFramesEnd(n: Namer, mem: Memory, ebp: Word, esp: Word, eip: Word, frameNo: nat, fuel: nat)
    requires NamerReadable(n)
    ensures var w := WalkFrames(n, mem, ebp, esp, eip, frameNo, fuel);
            && (w.end == Finished ==> !InChain(Resume(ebp, w.lines)))
            && (w.end == Faulted ==>
                  if |w.lines| == 0 then ebp !in mem
                  else IsFrameLine(Last(w.lines)) && (NextWord(Last(w.lines).frame) !in mem || Last(w.lines).next !in mem))
    decreases fuel
  {
    if Steps(mem, ebp, fuel) {
      WalkCons(n, mem, ebp, esp, eip, frameNo, fuel);
      var line := FrameLine(n, mem, ebp, esp, eip, frameNo);
      var rest := WalkFrames(n, mem, mem[ebp], mem[NextWord(ebp)], eip, frameNo + 1, fuel - 1);
      WalkFramesEnd(n, mem, mem[ebp], mem[NextWord(ebp)], eip, frameNo + 1, fuel - 1);
      LastCons(line, rest.lines);
    } else {
      WalkStops(n, mem, ebp, esp, eip, frameNo, fuel);
    }
  }

  /** The last line after one more in front: the old last line, or the new
      one when there was none. */
  lemma LastCons(l: Line, ls: seq<Line>)
    ensures Last([l] + ls) == if |ls| == 0 then l else Last(ls)
  {
  }

  /** Attribution of the faulting instruction when the stack is corrupted:
      the symbol if one is found, else the `__backtrace_symbols` text when
      printable, else nothing. */
  function FailureWhere(n: Namer, eip: Word): (r: Resolution)
    requires NamerReadable(n)
    ensures var l := FindFuncSymbol(n.sym, eip);
            l.name.StrAt? ==> r == Symbol(l.name.offset, l.offset)
    ensures var l := FindFuncSymbol(n.sym, eip);
            l.name.Unknown? && Printable(n.describe(eip)) ==> r == Described(n.describe(eip))
    ensures var l := FindFuncSymbol(n.sym, eip);
            l.name.Unknown? && !Printable(n.describe(eip)) ==> r == Unnamed
    ensures r != SillyCode
  {
    var l := FindFuncSymbol(n.sym, eip);
    if l.name.StrAt? then Symbol(l.name.offset, l.offset)
    else if Printable(n.describe(eip)) then Described(n.describe(eip))
    else Unnamed
  }

  /** The corrupted-stack attribution is the frame attribution of a build
      with `__backtrace_symbols`, whatever the build, except that where a
      frame would show the placeholder it shows nothing. */
  lemma FailureWhereMatchesFrames(n: Namer, eip: Word)
    requires NamerReadable(n)
    ensures var r := Attribute(n.(execinfo := true), FindFuncSymbol(n.sym, eip), eip);
            FailureWhere(n, eip) == if r == SillyCode then Unnamed else r
  {
  }

  /** `print_my_backtrace`. Only the i386 build walks at all. A start below
      the floor (null included) yields the corruption message and, when
      `eip` is not null, a single attribution of `eip`, and no frame lines.
      Otherwise the column header is followed by the main loop's lines. */
  function PrintMyBacktrace(build: Build, n: Namer, mem: Memory, ebp: Word, esp: Word, eip: Word, fuel: nat): (w: Walk)
    requires NamerReadable(n)
    ensures !build.i386 ==> w == Walk([], Finished)
    ensures build.i386 && ebp < StackFloor ==>
              && w.end == Finished
              && |w.lines| == (if eip != NULL then 3 else 2)
              && w.lines[0] == StackHeader && w.lines[1] == CorruptedStack
              && (eip != NULL ==> w.lines[2] == FailedAt(eip, FailureWhere(n, eip)))
    ensures build.i386 && ebp >= StackFloor ==>
              && |w.lines| >= 2
              && w.lines[0] == StackHeader && w.lines[1] == FrameColumns
              && Walk(w.lines[2..], w.end) == WalkFrames(n, mem, ebp, esp, eip, 1, fuel)
  {
    if !build.i386 then Walk([], Finished)
    else if ebp < StackFloor then
      Walk([StackHeader, CorruptedStack] + (if eip != NULL then [FailedAt(eip, FailureWhere(n, eip))] else []), Finished)
    else
      var w := WalkFrames(n, mem, ebp, esp, eip, 1, fuel);
      assert ([StackHeader, FrameColumns] + w.lines)[2..] == w.lines;
      Walk([StackHeader, FrameColumns] + w.lines, w.end)
  }

  /** With a corrupted start the walker reads no memory at all: the output
      is the same whatever the memory holds. */
  lemma CorruptStartReadsNoMemory(build: Build, n: Namer, mem1: Memory, mem2: Memory, ebp: Word, esp: Word, eip: Word, fuel: nat)
    requires NamerReadable(n)
    requires ebp < StackFloor
    ensures PrintMyBacktrace(build, n, mem1, ebp, esp, eip, fuel) == PrintMyBacktrace(build, n, mem2, ebp, esp, eip, fuel)
    ensures forall k :: 0 <= k < |PrintMyBacktrace(build, n, mem1, ebp, esp, eip, fuel).lines| ==>
              !IsFrameLine(PrintMyBacktrace(build, n, mem1, ebp, esp, eip, fuel).lines[k])
  {
  }

  /** A frame pointer exactly at the floor passes the corruption check but
      not the loop condition: the headers and no frame. */
  lemma FloorGivesNoFrames(build: Build, n: Namer, mem: Memory, esp: Word, eip: Word, fuel: nat)
    requires NamerReadable(n)
    requires build.i386
    ensures PrintMyBacktrace(build, n, mem, StackFloor, esp, eip, fuel) == Walk([StackHeader, FrameColumns], Finished)
  {
    var w := PrintMyBacktrace(build, n, mem, StackFloor, esp, eip, fuel);
    assert WalkFrames(n, mem, StackFloor, esp, eip, 1, fuel) == Walk([], Finished);
    assert w.lines == w.lines[..2] + w.lines[2..];
  }

  lemma FrameLineIgnoresEip(n: Namer, mem: Memory, ebp: Word, esp: Word, eip1: Word, eip2: Word, frameNo: nat)
    requires NamerReadable(n) && ebp in mem
    requires frameNo != 1
    ensures FrameLine(n, mem, ebp, esp, eip1, frameNo) == FrameLine(n, mem, ebp, esp, eip2, frameNo)
  {
  }

  /** `eip` serves only frame 1: from frame 2 on the walk does not depend on it. */
  lemma {:induction false} EipOnlyInnermost(n: Namer, mem: Memory, ebp: Word, esp: Word, eip1: Word, eip2: Word, frameNo: nat, fuel: nat)
    requires NamerReadable(n)
    requires frameNo >= 2
    ensures WalkFrames(n, mem, ebp, esp, eip1, frameNo, fuel) == WalkFrames(n, mem, ebp, esp, eip2, frameNo, fuel)
    decreases fuel
  {
    if ebp in mem {
      FrameLineIgnoresEip(n, mem, ebp, esp, eip1, eip2, frameNo);
    }
    if Steps(mem, ebp, fuel) {
      WalkCons(n, mem, ebp, esp, eip1, frameNo, fuel);
      WalkCons(n, mem, ebp, esp, eip2, frameNo, fuel);
      EipOnlyInnermost(n, mem, mem[ebp], mem[NextWord(ebp)], eip1, eip2, frameNo + 1, fuel - 1);
    } else {
      WalkStops(n, mem, ebp, esp, eip1, frameNo, fuel);
      WalkStops(n, mem, ebp, esp, eip2, frameNo, fuel);
    }
  }

  /** A walk that did not run out of fuel is unchanged by more fuel. */
  lemma {:induction false} MoreFuelSameWalk(n: Namer, mem: Memory, ebp: Word, esp: Word, eip: Word, frameNo: nat, fuel: nat, more: nat)
    requires NamerReadable(n)
    requires WalkFrames(n, mem, ebp, esp, eip, frameNo, fuel).end != OutOfFuel
    requires fuel <= more
    ensures WalkFrames(n, mem, ebp, esp, eip, frameNo, more) == WalkFrames(n, mem, ebp, esp, eip, frameNo, fuel)
    decreases fuel
  {
    if Steps(mem, ebp, fuel) {
      WalkCons(n, mem, ebp, esp, eip, frameNo, fuel);
      WalkCons(n, mem, ebp, esp, eip, frameNo, more);
      MoreFuelSameWalk(n, mem, mem[ebp], mem[NextWord(ebp)], eip, frameNo + 1, fuel - 1, more - 1);
    } else {
      WalkStops(n, mem, ebp, esp, eip, frameNo, fuel);
      WalkStops(n, mem, ebp, esp, eip, frameNo, more);
    }
  }

  /** Every saved frame pointer that stays in the plausible range points
      strictly above its own frame. */
  predicate IncreasingChain(mem: Memory) {
    forall a :: a in mem && InChain(a) && InChain(mem[a]) ==> mem[a] > a
  }

  /** On a chain whose frame addresses strictly increase, `WordRange - ebp`
      fuel is enough: the walk never ends for lack of fuel. */
  lemma {:induction false} IncreasingChainFinishes(n: Namer, mem: Memory, ebp: Word, esp: Word, eip: Word, frameNo: nat)
    requires NamerReadable(n)
    requires IncreasingChain(mem)
    ensures WalkFrames(n, mem, ebp, esp, eip, frameNo, WordRange - ebp).end != OutOfFuel
    decreases WordRange - ebp
  {
    var fuel := WordRange - ebp;
    if Steps(mem, ebp, fuel) {
      var next := mem[ebp];
      var sp := mem[NextWord(ebp)];
      WalkCons(n, mem, ebp, esp, eip, frameNo, fuel);
      if InChain(next) {
        IncreasingChainFinishes(n, mem, next, sp, eip, frameNo + 1);
        MoreFuelSameWalk(n, mem, next, sp, eip, frameNo + 1, WordRange - next, fuel - 1);
      } else {
        WalkStops(n, mem, next, sp, eip, frameNo + 1, fuel - 1);
      }
    } else {
      WalkStops(n, mem, ebp, esp, eip, frameNo, fuel);
    }
  }
}
