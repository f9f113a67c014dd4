/** The signal handler and reporter (`sigsegv_handler`, `print_diag_info`,
    `print_lib_list`). The handler is a two-state machine driven by the
    static `level` counter: a first SIGSEGV moves it from 0 to 1, and a
    SIGSEGV arriving while it is positive ends the process at once. */
module SignalHandler {
  import opened Wrappers
  import opened Machine
  import opened Loader
  import opened Resolver
  import opened Report
  import opened CallCapture
  import opened StackWalker

  const SIGSEGV: int := 11

  /** One `struct link_map` node of the debug structure's `r_map` list:
      load address and path (a null path is `None`). */
  datatype LinkMap = LinkMap(addr: Word, name: Option<string>)

  /** The loaded-library lines: one per module with a non-zero base and a
      path, and no other. */
  function Libraries(maps: seq<LinkMap>): (ls: seq<Line>)
    ensures |ls| <= |maps|
    ensures forall m :: m in maps && m.addr != NULL && m.name.Some? ==> Library(m.addr, m.name.value) in ls
    ensures forall l :: l in ls ==> exists m :: m in maps && m.addr != NULL && m.name.Some? && l == Library(m.addr, m.name.value)
  {
    if |maps| == 0 then []
    else
      var m := maps[0];
      var rest := Libraries(maps[1..]);
      assert forall x :: x in maps[1..] ==> x in maps;
      assert forall x :: x in maps ==> x == m || x in maps[1..];
      if m.addr != NULL && m.name.Some? then [Library(m.addr, m.name.value)] + rest else rest
  }

  /** A single node gives its line when it has a base and a path, and
      nothing otherwise. */
  lemma LibrariesOne(m: LinkMap)
    ensures m.addr != NULL && m.name.Some? ==> Libraries([m]) == [Library(m.addr, m.name.value)]
    ensures m.addr == NULL || m.name.None? ==> Libraries([m]) == []
  {
    assert [m][1..] == [];
  }

  /** The list is walked in order: the lines of two consecutive stretches
      of the module list are the lines of the first followed by those of
      the second. */
  lemma {:induction false} LibrariesAppend(a: seq<LinkMap>, b: seq<LinkMap>)
    ensures Libraries(a + b) == Libraries(a) + Libraries(b)
    decreases |a|
  {
    if |a| > 0 {
      assert (a + b)[0] == a[0];
      assert (a + b)[1..] == a[1..] + b;
      LibrariesAppend(a[1..], b);
    } else {
      assert a + b == b;
    }
  }

  /** `print_lib_list`: nothing without ELF support or without a debug
      structure; otherwise the header and the filtered module list. */
  function PrintLibList(elf: bool, t: ProcTables, maps: seq<LinkMap>): (ls: seq<Line>)
    ensures !elf || t.debug == NULL ==> ls == []
    ensures elf && t.debug != NULL ==> ls == [LibrariesHeader] + Libraries(maps)
  {
    if elf && t.debug != NULL then [LibrariesHeader] + Libraries(maps) else []
  }

  /** The process image the diagnostics introspect: the dynamic array, the
      mapped memory, the symbol records at the symbol table address, and
      the loaded-module list. */
  datatype Image = Image(dynamic: Option<seq<DynEntry>>, mem: Memory, symbols: seq<SymRecord>, linkMaps: seq<LinkMap>)

  /** The saved registers of the signal context that seed the walk. */
  datatype Registers = Registers(ebp: Word, esp: Word, eip: Word)

  /** Everything the handler consults besides its own state: the build,
      the image, the `__backtrace_symbols` and `__builtin_return_address`
      oracles, the signal context, the program name and the walker's fuel. */
  datatype Env = Env(
    build: Build,
    image: Image,
    describe: Word -> string,
    returnAddresses: seq<Word>,
    regs: Registers,
    progName: string,
    fuel: nat)

  /** The process-global state the handler reads and writes: the `level`
      counter, the `_ptabs` table and the static call-list buffer. */
  datatype Process = Process(level: nat, tables: ProcTables, callBuf: seq<Word>)

  /** How the handler invocation ended: `exit` with a status, a normal
      return, a fault raised while reporting (the process then receives a
      new SIGSEGV), or a walk that used up the model's fuel. */
  datatype Outcome = Exited(status: int) | Returned | Refault | Unfinished

  datatype Step = Step(after: Process, lines: seq<Line>, outcome: Outcome)

  function NamerFor(env: Env, t: ProcTables): Namer {
    Namer(Symbols(env.build.elf, t, env.image.symbols), env.build.execinfo, env.describe)
  }

  function Reload(p: Process, env: Env): ProcTables
    requires env.build.elf ==> HashReadable(env.image.dynamic, env.image.mem)
  {
    GetProcTables(env.build.elf, p.tables, env.image.dynamic, env.image.mem)
  }

  /** The image is consistent with itself where the report looks: the hash
      table is mapped when a signal context makes the report reload the
      table, and the symbol records are readable for the table the report
      uses (the reloaded one with a signal context, the one as it stands
      without). */
  predicate Ready(p: Process, env: Env) {
    && |p.callBuf| == BufferSlots
    && |env.returnAddresses| == Probes
    && (env.build.elf && env.build.sigcontext ==> HashReadable(env.image.dynamic, env.image.mem))
    && (!env.build.sigcontext ==> NamerReadable(NamerFor(env, p.tables)))
    && (env.build.sigcontext ==> NamerReadable(NamerFor(env, Reload(p, env))))
  }

  /** The report and the state it leaves behind. */
  datatype Diag = Diag(tables: ProcTables, callBuf: seq<Word>, lines: seq<Line>, end: WalkEnd)

  /** The report section of the handler. With a signal context it is
      `print_diag_info`: reload the table, then the banner, the library list,
      the register dump and the frame walk seeded from the context. Without
      one it is `print_simple_backtrace`, which uses the table as it stands
      (never loaded on that path). */
  function DiagReport(p: Process, env: Env): (d: Diag)
    requires Ready(p, env)
    ensures env.build.sigcontext ==> d.tables == Reload(p, env) && d.callBuf == p.callBuf
    ensures env.build.sigcontext ==>
              && |d.lines| >= |PrintLibList(env.build.elf, d.tables, env.image.linkMaps)| + 2
              && d.lines[0] == DebugBanner
              && d.lines[1..|PrintLibList(env.build.elf, d.tables, env.image.linkMaps)| + 1] == PrintLibList(env.build.elf, d.tables, env.image.linkMaps)
              && d.lines[|PrintLibList(env.build.elf, d.tables, env.image.linkMaps)| + 1] == SignalContext(env.regs.ebp, env.regs.esp, env.regs.eip)
    ensures env.build.sigcontext ==>
              var w := PrintMyBacktrace(env.build, NamerFor(env, d.tables), env.image.mem, env.regs.ebp, env.regs.esp, env.regs.eip, env.fuel);
              && d.end == w.end
              && d.lines[|PrintLibList(env.build.elf, d.tables, env.image.linkMaps)| + 2..] == w.lines
    ensures !env.build.sigcontext ==> d.tables == p.tables && d.end == Finished
    ensures !env.build.sigcontext ==>
              d == (var c := PrintSimpleBacktrace(env.build.returnAddress, NamerFor(env, p.tables), p.callBuf, env.returnAddresses);
                    Diag(p.tables, c.buf, c.lines, Finished))
    ensures |d.callBuf| == BufferSlots
  {
    if env.build.sigcontext then
      var t := Reload(p, env);
      var w := PrintMyBacktrace(env.build, NamerFor(env, t), env.image.mem, env.regs.ebp, env.regs.esp, env.regs.eip, env.fuel);
      var libs := PrintLibList(env.build.elf, t, env.image.linkMaps);
      var ls := [DebugBanner] + libs + [SignalContext(env.regs.ebp, env.regs.esp, env.regs.eip)] + w.lines;
      assert ls[1..|libs| + 1] == libs;
      assert ls[|libs| + 1] == SignalContext(env.regs.ebp, env.regs.esp, env.regs.eip);
      assert ls[|libs| + 2..] == w.lines;
      Diag(t, p.callBuf, ls, w.end)
    else
      var c := PrintSimpleBacktrace(env.build.returnAddress, NamerFor(env, p.tables), p.callBuf, env.returnAddresses);
      Diag(p.tables, c.buf, c.lines, Finished)
  }

  /** The fixed guidance printed after a fatal report. */
  const GuidanceLines: seq<Line> := [
    Guidance("Please collect all the listed information and submit a bug report to <as-bugs@afterstep.org>."),
    Guidance("If core dump was generated by this fault, please examine it with gdb and attach results to your report."),
    Guidance(" You can use the following sequence to do so :"),
    Guidance("   gdb -core core /usr/local/bin/afterstep"),
    Guidance("   gdb>backtrace"),
    Guidance("   gdb>info frame"),
    Guidance("   gdb>info all-registers"),
    Guidance("   gdb>disassemble")
  ]

  predicate HasGuidance(ls: seq<Line>) {
    exists k :: 0 <= k < |ls| && ls[k].Guidance?
  }

  /** How the invocation ends after the report: a fault while walking
      raises a new signal, a walk out of fuel is unfinished, and a completed
      report exits on SIGSEGV and returns otherwise. */
  function Conclude(signum: int, end: WalkEnd): Outcome {
    if end == Faulted then Refault
    else if end == OutOfFuel then Unfinished
    else if signum == SIGSEGV then Exited(1)
    else Returned
  }

  /** `sigsegv_handler`.
      A SIGSEGV while `level > 0` emits only the "Segmentation Fault trapped"
      fragment and exits with status 1, leaving the state alone.
      The first SIGSEGV sets `level` to 1, names the program, reports, and on
      a completed report prints the guidance and exits with status 1.
      Any other signal leaves `level` unchanged, reports, never prints the
      guidance, and returns. */
  function SigsegvHandler(p: Process, env: Env, signum: int): (s: Step)
    requires Ready(p, env)
    ensures signum == SIGSEGV && p.level > 0 ==> s == Step(p, [SegfaultTrapped], Exited(1))
    ensures signum == SIGSEGV && p.level == 0 ==>
              && s.after.level == 1
              && |s.lines| >= 2
              && s.lines[0] == SegfaultTrapped && s.lines[1] == InProgram(env.progName)
              && (s.outcome == Exited(1) ==> |s.lines| >= 10 && s.lines[|s.lines| - 8..] == GuidanceLines)
              && (s.outcome == Exited(1) || s.outcome == Refault || s.outcome == Unfinished)
    ensures signum != SIGSEGV ==>
              && s.after.level == p.level
              && |s.lines| >= 1
              && s.lines[0] == NonCritical(signum, env.progName)
              && !HasGuidance(s.lines)
              && (s.outcome == Returned || s.outcome == Refault || s.outcome == Unfinished)
    ensures !(signum == SIGSEGV && p.level > 0) ==> s.after == AfterReport(Entered(p, signum), env)
    ensures !(signum == SIGSEGV && p.level > 0) ==>
              var d := DiagReport(Entered(p, signum), env);
              var banner := if signum == SIGSEGV then [SegfaultTrapped, InProgram(env.progName)]
                            else [NonCritical(signum, env.progName)];
              && s.outcome == Conclude(signum, d.end)
              && s.lines == banner + d.lines + (if s.outcome == Exited(1) then GuidanceLines else [])
  {
    if signum == SIGSEGV && p.level > 0 then Step(p, [SegfaultTrapped], Exited(1))
    else if signum == SIGSEGV then
      ReadyIgnoresLevel(p, Entered(p, signum), env);
      var s := Reported(Entered(p, signum), env, signum, [SegfaultTrapped, InProgram(env.progName)]);
      assert s.lines[..2][0] == s.lines[0] && s.lines[..2][1] == s.lines[1];
      s
    else
      var s := Reported(Entered(p, signum), env, signum, [NonCritical(signum, env.progName)]);
      assert s.lines[..1][0] == s.lines[0];
      assert !HasGuidance([NonCritical(signum, env.progName)]);
      s
  }

  /** The state on entry to the report: a SIGSEGV raises `level`, any other
      signal leaves it. */
  function Entered(p: Process, signum: int): (q: Process)
    ensures q.level == if signum == SIGSEGV then p.level + 1 else p.level
    ensures q.tables == p.tables && q.callBuf == p.callBuf
  {
    if signum == SIGSEGV then p.(level := p.level + 1) else p
  }

  /** Readiness does not depend on `level`. */
  lemma ReadyIgnoresLevel(p: Process, q: Process, env: Env)
    requires Ready(p, env) && q.tables == p.tables && q.callBuf == p.callBuf
    ensures Ready(q, env)
  {
  }

  /** The state the report leaves: its table and call buffer. */
  function AfterReport(p: Process, env: Env): (q: Process)
    requires Ready(p, env)
    ensures q.level == p.level
  {
    var d := DiagReport(p, env);
    p.(tables := d.tables, callBuf := d.callBuf)
  }

  /** The report after the banner: the banner, the report's lines, and on a
      completed SIGSEGV report the guidance. A banner without guidance
      lines gives output without guidance unless the process exits. */
  function Reported(p: Process, env: Env, signum: int, banner: seq<Line>): (s: Step)
    requires Ready(p, env)
    ensures s.after == AfterReport(p, env)
    ensures s.outcome == Conclude(signum, DiagReport(p, env).end)
    ensures s.lines == banner + DiagReport(p, env).lines + (if s.outcome == Exited(1) then GuidanceLines else [])
    ensures |s.lines| >= |banner| && s.lines[..|banner|] == banner
    ensures s.outcome == Exited(1) ==> |s.lines| >= |banner| + 8 && s.lines[|s.lines| - 8..] == GuidanceLines
    ensures s.outcome != Exited(1) && !HasGuidance(banner) ==> !HasGuidance(s.lines)
  {
    var d := DiagReport(p, env);
    var outcome := Conclude(signum, d.end);
    var tail := if outcome == Exited(1) then GuidanceLines else [];
    var ls := banner + d.lines + tail;
    ReportShape(banner, d.lines, tail);
    if outcome != Exited(1) && !HasGuidance(banner) then
      ReportHasNoGuidance(p, env);
      NoGuidanceAppend(banner, d.lines);
      assert ls == banner + d.lines;
      Step(AfterReport(p, env), ls, outcome)
    else
      Step(AfterReport(p, env), ls, outcome)
  }

  /** The banner heads the output and the tail ends it. */
  lemma ReportShape(banner: seq<Line>, report: seq<Line>, tail: seq<Line>)
    ensures (banner + report + tail)[..|banner|] == banner
    ensures (banner + report + tail)[|banner + report + tail| - |tail|..] == tail
  {
  }

  lemma NoGuidanceAppend(a: seq<Line>, b: seq<Line>)
    requires !HasGuidance(a) && !HasGuidance(b)
    ensures !HasGuidance(a + b)
  {
    forall k | 0 <= k < |a + b| ensures !(a + b)[k].Guidance? {
      if k >= |a| {
        assert (a + b)[k] == b[k - |a|];
      }
    }
  }

  lemma LibListHasNoGuidance(elf: bool, t: ProcTables, maps: seq<LinkMap>)
    ensures !HasGuidance(PrintLibList(elf, t, maps))
  {
    var ls := PrintLibList(elf, t, maps);
    forall k | 0 <= k < |ls| ensures !ls[k].Guidance? {
      assert ls[k] in ls;
    }
  }

  lemma BacktraceHasNoGuidance(build: Build, n: Namer, mem: Memory, r: Registers, fuel: nat)
    requires NamerReadable(n)
    ensures !HasGuidance(PrintMyBacktrace(build, n, mem, r.ebp, r.esp, r.eip, fuel).lines)
  {
    var w := PrintMyBacktrace(build, n, mem, r.ebp, r.esp, r.eip, fuel);
    if build.i386 && r.ebp >= StackFloor {
      var f := WalkFrames(n, mem, r.ebp, r.esp, r.eip, 1, fuel);
      WalkFramesSaved(n, mem, r.ebp, r.esp, r.eip, 1, fuel);
      forall k | 0 <= k < |w.lines| ensures !w.lines[k].Guidance? {
        if k >= 2 {
          assert w.lines[k] == f.lines[k - 2];
          assert SavedFrame(mem, f.lines[k - 2]);
        }
      }
    }
  }

  lemma CallsHaveNoGuidance(enabled: bool, n: Namer, buf: seq<Word>, ra: seq<Word>)
    requires NamerReadable(n)
    requires |buf| == BufferSlots && |ra| == Probes
    ensures !HasGuidance(PrintSimpleBacktrace(enabled, n, buf, ra).lines)
  {
    var c := PrintSimpleBacktrace(enabled, n, buf, ra);
    forall k | 0 <= k < |c.lines| ensures !c.lines[k].Guidance? {
      if k >= 2 {
        assert c.lines[k] == c.lines[2 + (k - 2)];
      }
    }
  }

  /** The report itself never contains guidance lines. */
  lemma ReportHasNoGuidance(p: Process, env: Env)
    requires Ready(p, env)
    ensures !HasGuidance(DiagReport(p, env).lines)
  {
    var d := DiagReport(p, env);
    if env.build.sigcontext {
      var t := Reload(p, env);
      var w := PrintMyBacktrace(env.build, NamerFor(env, t), env.image.mem, env.regs.ebp, env.regs.esp, env.regs.eip, env.fuel);
      var libs := PrintLibList(env.build.elf, t, env.image.linkMaps);
      assert d.lines == [DebugBanner] + libs + [SignalContext(env.regs.ebp, env.regs.esp, env.regs.eip)] + w.lines;
      LibListHasNoGuidance(env.build.elf, t, env.image.linkMaps);
      BacktraceHasNoGuidance(env.build, NamerFor(env, t), env.image.mem, env.regs, env.fuel);
      NoGuidanceAppend([DebugBanner], libs);
      NoGuidanceAppend([DebugBanner] + libs, [SignalContext(env.regs.ebp, env.regs.esp, env.regs.eip)]);
      NoGuidanceAppend([DebugBanner] + libs + [SignalContext(env.regs.ebp, env.regs.esp, env.regs.eip)], w.lines);
    } else {
      CallsHaveNoGuidance(env.build.returnAddress, NamerFor(env, p.tables), p.callBuf, env.returnAddresses);
    }
  }

  /** Once a first SIGSEGV has been handled, any later SIGSEGV, whatever
      the image and registers then, prints only the trap fragment and exits
      with status 1 without reporting again. */
  lemma SecondFaultExitsImmediately(p: Process, env1: Env, env2: Env)
    requires p.level == 0
    requires Ready(p, env1)
    requires Ready(SigsegvHandler(p, env1, SIGSEGV).after, env2)
    ensures var q := SigsegvHandler(p, env1, SIGSEGV).after;
            SigsegvHandler(q, env2, SIGSEGV) == Step(q, [SegfaultTrapped], Exited(1))
  {
  }

  /** Starting from the initial state, no sequence of signals ever takes
      `level` beyond 1. */
  lemma LevelStaysAtMostOne(p: Process, env: Env, signum: int)
    requires p.level <= 1
    requires Ready(p, env)
    ensures SigsegvHandler(p, env, signum).after.level <= 1
  {
  }
}
