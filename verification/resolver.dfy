/** The symbol resolver (`find_func_symbol`): maps a code address to the
    tightest enclosing function symbol and the byte offset into it, by a
    linear scan of the symbol table the loader located. */
module Resolver {
  import opened Wrappers
  import opened Machine
  import opened Loader

  /** `STT_FUNC`: the symbol type of a function. */
  const STT_FUNC: nat := 2
  /** `sizeof (Elf32_Sym)` and `sizeof (Elf64_Sym)`. */
  const Elf32SymSize: nat := 16
  const Elf64SymSize: nat := 24

  /** Offset markers: the initial `min_offset`, also returned when nothing
      matched or the entry size is neither layout; the marker for missing
      symbol or string tables; the marker of a build without ELF support. */
  const NoMatchOffset: int := 0x0fffffff
  const NoTablesOffset: int := -1
  const NoElfOffset: int := 0

  /** The two symbol entry layouts. Only the fields the resolver reads are
      kept; the order follows `Elf32_Sym` and `Elf64_Sym` respectively. */
  datatype SymRecord =
    | Elf32Sym(stName: nat, stValue: nat, stSize: nat, stInfo: nat)
    | Elf64Sym(stName: nat, stInfo: nat, stValue: nat, stSize: nat)

  /** A resolved name: the shared "unknown" string, or the string starting
      at an offset into the string table. */
  datatype SymName = Unknown | StrAt(offset: nat)

  /** What `find_func_symbol` returns: the name and the value left in `*offset`. */
  datatype Lookup = Lookup(name: SymName, offset: int)

  /** Everything the resolver consults: whether the build has ELF support,
      the process-wide table, and the records found at `tables.symbols`
      read with the layout that `tables.symEntSize` announces. */
  datatype Symbols = Symbols(elf: bool, tables: ProcTables, entries: seq<SymRecord>)

  predicate KnownLayout(t: ProcTables) {
    t.symEntSize == Elf32SymSize || t.symEntSize == Elf64SymSize
  }

  predicate TablesPresent(t: ProcTables) {
    t.symbols != NULL && t.strings != NULL
  }

  /** Entries `1 .. Bound - 1` are scanned (`for (i = 1; i < sym_ent_num; i++)`). */
  function Bound(t: ProcTables): nat {
    if t.symEntNum < 0 then 0 else t.symEntNum
  }

  /** The scanned records are mapped and are all of the announced layout. */
  predicate Readable(s: Symbols) {
    s.elf && TablesPresent(s.tables) && KnownLayout(s.tables) ==>
      && Bound(s.tables) <= |s.entries|
      && forall i :: 0 <= i < |s.entries| ==> (s.entries[i].Elf32Sym? <==> s.tables.symEntSize == Elf32SymSize)
  }

  /** `ELF32_ST_TYPE` / `ELF64_ST_TYPE`: the low four bits of `st_info`. */
  function SymType(e: SymRecord): nat {
    e.stInfo % 16
  }

  function Offset(e: SymRecord, a: nat): int {
    a - e.stValue
  }

  /** An entry the scan can select for address `a`: a function that starts
      at or below `a`, whose declared size covers `a`, and whose offset is
      below the initial `min_offset`. */
  predicate Candidate(e: SymRecord, a: nat) {
    && SymType(e) == STT_FUNC
    && e.stValue <= a
    && Offset(e, a) < e.stSize
    && Offset(e, a) < NoMatchOffset
  }

  /** Entry `i` has the least offset among the candidates in `1 .. k - 1`,
      and every earlier candidate has a strictly larger offset. */
  predicate Tightest(es: seq<SymRecord>, a: nat, i: nat, k: nat)
    requires i < k <= |es|
  {
    forall j :: 1 <= j < k && Candidate(es[j], a) ==>
      Offset(es[i], a) <= Offset(es[j], a) && (j < i ==> Offset(es[i], a) < Offset(es[j], a))
  }

  /** The entry selected after the loop has looked at entries `1 .. k - 1`:
      a later entry replaces the selection only when its offset is strictly
      smaller (`curr_offset < min_offset`). */
  function Best(es: seq<SymRecord>, a: nat, k: nat): (b: Option<nat>)
    requires k <= |es|
    ensures b.None? <==> forall j :: 1 <= j < k ==> !Candidate(es[j], a)
    ensures b.Some? ==> 1 <= b.value < k && Candidate(es[b.value], a) && Tightest(es, a, b.value, k)
    decreases k
  {
    if k <= 1 then None
    else
      var b := Best(es, a, k - 1);
      var e := es[k - 1];
      if Candidate(e, a) && (b.None? || Offset(e, a) < Offset(es[b.value], a)) then Some(k - 1) else b
  }

  /** The result of a scan that selected nothing or selected entry `i`,
      as the post-loop `*offset = min_offset; return selected;` reports it. */
  predicate Reports(s: Symbols, a: nat, r: Lookup)
    requires Bound(s.tables) <= |s.entries|
  {
    var es := s.entries;
    var k := Bound(s.tables);
    && ((exists i :: 1 <= i < k && Candidate(es[i], a)) <==> r.name.StrAt?)
    && (r.name.Unknown? ==> r.offset == NoMatchOffset)
    && (r.name.StrAt? ==>
          exists i :: 1 <= i < k && Candidate(es[i], a) && Tightest(es, a, i, k)
                      && r.name.offset == es[i].stName && r.offset == Offset(es[i], a))
  }

  /** The body of `find_func_symbol` once the address the loop compares
      against, `a`, has been fixed. */
  function ScanTables(s: Symbols, a: nat): (r: Lookup)
    requires Readable(s)
    ensures !s.elf ==> r == Lookup(Unknown, NoElfOffset)
    ensures s.elf && !TablesPresent(s.tables) ==> r == Lookup(Unknown, NoTablesOffset)
    ensures s.elf && TablesPresent(s.tables) && !KnownLayout(s.tables) ==> r == Lookup(Unknown, NoMatchOffset)
    ensures s.elf && TablesPresent(s.tables) && KnownLayout(s.tables) ==> Reports(s, a, r)
  {
    if !s.elf then Lookup(Unknown, NoElfOffset)
    else if !TablesPresent(s.tables) then Lookup(Unknown, NoTablesOffset)
    else if !KnownLayout(s.tables) then Lookup(Unknown, NoMatchOffset)
    else
      match Best(s.entries, a, Bound(s.tables))
      case None => Lookup(Unknown, NoMatchOffset)
      case Some(i) => Lookup(StrAt(s.entries[i].stName), Offset(s.entries[i], a))
  }

  /** The address each layout compares symbol values against: an
      `Elf32_Addr` (the address truncated to 32 bits) for 32-bit entries,
      the full address for 64-bit entries. */
  function ScanAddress(t: ProcTables, addr: nat): (a: nat)
    ensures addr < WordRange ==> a == addr
    ensures t.symEntSize == Elf64SymSize ==> a == addr
    ensures t.symEntSize == Elf32SymSize ==> a == addr % WordRange && a < WordRange
  {
    if t.symEntSize == Elf32SymSize then addr % WordRange else addr
  }

  /** `find_func_symbol`, with the 64-bit branch comparing the full address.
      A non-"unknown" result names an entry with index in `1 .. sym_ent_num - 1`
      (entry 0 is never examined) that is a function covering the address,
      reports the offset of the address into it, and has the least such
      offset (the earliest entry on ties). Each failure has its own marker. */
  function FindFuncSymbol(s: Symbols, addr: nat): (r: Lookup)
    requires Readable(s)
    ensures !s.elf ==> r == Lookup(Unknown, NoElfOffset)
    ensures s.elf && !TablesPresent(s.tables) ==> r == Lookup(Unknown, NoTablesOffset)
    ensures s.elf && TablesPresent(s.tables) && !KnownLayout(s.tables) ==> r == Lookup(Unknown, NoMatchOffset)
    ensures s.elf && TablesPresent(s.tables) && KnownLayout(s.tables) ==> Reports(s, ScanAddress(s.tables, addr), r)
  {
    ScanTables(s, ScanAddress(s.tables, addr))
  }

  /** `find_func_symbol` as written: both branches compare against
      `(unsigned int)addr`, so the 64-bit branch sees only the low 32 bits
      of the address. */
  function FindFuncSymbolAsWritten(s: Symbols, addr: nat): (r: Lookup)
    requires Readable(s)
    ensures r == ScanTables(s, addr % WordRange)
    ensures s.tables.symEntSize != Elf64SymSize || addr < WordRange ==> r == FindFuncSymbol(s, addr)
  {
    ScanTables(s, addr % WordRange)
  }

  /** A 64-bit symbol table whose only function lies above 4 GiB. */
  const HighTables: ProcTables := ProcTables(0, 0x1000, 0x2000, Elf64SymSize, 2, 0x3000, 16, 0)
  const HighEntries: seq<SymRecord> := [Elf64Sym(0, 0, 0, 0), Elf64Sym(1, STT_FUNC, 0x7f00_0000_1000, 0x50)]

  /** As written, the 64-bit branch cannot resolve an address inside a
      function mapped above 4 GiB: it compares 0x1020 against the symbol's
      value 0x7f0000001000. The corrected scan finds the function. */
  lemma TruncationMissesHighFunctions()
    ensures FindFuncSymbolAsWritten(Symbols(true, HighTables, HighEntries), 0x7f00_0000_1020) == Lookup(Unknown, NoMatchOffset)
    ensures FindFuncSymbol(Symbols(true, HighTables, HighEntries), 0x7f00_0000_1020) == Lookup(StrAt(1), 0x20)
  {
    var s := Symbols(true, HighTables, HighEntries);
    assert Best(HighEntries, 0x1020, 2) == None by {
      assert !Candidate(HighEntries[1], 0x1020);
    }
    assert Best(HighEntries, 0x7f00_0000_1020, 2) == Some(1) by {
      assert Candidate(HighEntries[1], 0x7f00_0000_1020);
    }
  }

  /** Two functions, `alpha` at [0x1000, 0x1050) and `beta` at [0x2000,
      0x2030), whose names start at string offsets 1 and 7. */
  const PairTables: ProcTables := ProcTables(0, 0x1000, 0x2000, Elf32SymSize, 3, 0x3000, 12, 0)
  const PairEntries: seq<SymRecord> := [Elf32Sym(0, 0, 0, 0), Elf32Sym(1, 0x1000, 0x50, 0x12), Elf32Sym(7, 0x2000, 0x30, 0x12)]

  /** An address inside `alpha` resolves to `alpha` and its offset; an
      address outside every function resolves to "unknown" with the
      no-match marker. */
  lemma TwoFunctionScenario()
    ensures FindFuncSymbol(Symbols(true, PairTables, PairEntries), 0x1020) == Lookup(StrAt(1), 0x20)
    ensures FindFuncSymbol(Symbols(true, PairTables, PairEntries), 0x3000) == Lookup(Unknown, NoMatchOffset)
  {
    assert Best(PairEntries, 0x1020, 3) == Some(1) by {
      assert Candidate(PairEntries[1], 0x1020);
      assert !Candidate(PairEntries[2], 0x1020);
    }
    assert Best(PairEntries, 0x3000, 3) == None by {
      assert !Candidate(PairEntries[1], 0x3000);
      assert !Candidate(PairEntries[2], 0x3000);
    }
  }

  /** Resolution never picks a wrong function: if `addr` lies inside exactly
      one function of the scanned entries, that function is reported with
      the offset of `addr` into it. */
  lemma UniqueEnclosingFunctionWins(s: Symbols, addr: nat, i: nat)
    requires Readable(s) && s.elf && TablesPresent(s.tables) && KnownLayout(s.tables)
    requires addr < WordRange
    requires 1 <= i < Bound(s.tables)
    requires Candidate(s.entries[i], addr)
    requires forall j :: 1 <= j < Bound(s.tables) && j != i ==> !Candidate(s.entries[j], addr)
    ensures FindFuncSymbol(s, addr) == Lookup(StrAt(s.entries[i].stName), addr - s.entries[i].stValue)
  {
  }
}
