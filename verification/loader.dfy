/** The symbol table loader: folds the process's own ELF dynamic array into
    the process-wide table of symbol, hash, string, debug and PLT/GOT
    locations (`get_proc_tables`). Tags are those of the "Dynamic Section"
    chapter of the System V ABI. */
module Loader {
  import opened Wrappers
  import opened Machine

  const DT_NULL: int := 0
  const DT_PLTGOT: int := 3
  const DT_HASH: int := 4
  const DT_STRTAB: int := 5
  const DT_SYMTAB: int := 6
  const DT_STRSZ: int := 10
  const DT_SYMENT: int := 11
  const DT_DEBUG: int := 21

  /** One `ElfW(Dyn)` entry: a signed tag and the `d_un` word. */
  datatype DynEntry = DynEntry(tag: int, val: Word)

  /** The process-wide `proc_tables` record. */
  datatype ProcTables = ProcTables(
    debug: Word,
    symbols: Word,
    symHash: Word,
    symEntSize: Word,
    symEntNum: int,
    strings: Word,
    strTablSize: Word,
    pltgot: Word)

  /** Every field zero/null, as left by the `memset`. */
  const ZeroTables: ProcTables := ProcTables(0, 0, 0, 0, 0, 0, 0, 0)

  /** The tags whose value the loader records. */
  predicate Recorded(tag: int) {
    tag == DT_SYMTAB || tag == DT_HASH || tag == DT_SYMENT || tag == DT_STRTAB
    || tag == DT_STRSZ || tag == DT_DEBUG || tag == DT_PLTGOT
  }

  /** The field of the table that a recorded tag fills. */
  function Field(t: ProcTables, tag: int): Word
    requires Recorded(tag)
  {
    if tag == DT_SYMTAB then t.symbols
    else if tag == DT_HASH then t.symHash
    else if tag == DT_SYMENT then t.symEntSize
    else if tag == DT_STRTAB then t.strings
    else if tag == DT_STRSZ then t.strTablSize
    else if tag == DT_DEBUG then t.debug
    else t.pltgot
  }

  /** One iteration of the loop's `switch`: the field named by the tag takes
      the entry's value; any other tag leaves the table alone. */
  function Absorb(t: ProcTables, d: DynEntry): (r: ProcTables)
    ensures r.symEntNum == t.symEntNum
    ensures forall tag :: Recorded(tag) ==> Field(r, tag) == (if d.tag == tag then d.val else Field(t, tag))
  {
    if d.tag == DT_SYMTAB then t.(symbols := d.val)
    else if d.tag == DT_HASH then t.(symHash := d.val)
    else if d.tag == DT_SYMENT then t.(symEntSize := d.val)
    else if d.tag == DT_STRTAB then t.(strings := d.val)
    else if d.tag == DT_STRSZ then t.(strTablSize := d.val)
    else if d.tag == DT_DEBUG then t.(debug := d.val)
    else if d.tag == DT_PLTGOT then t.(pltgot := d.val)
    else t
  }

  /** The entries the loop can see: those before the first `DT_NULL`. */
  function Live(ds: seq<DynEntry>): (live: seq<DynEntry>)
    ensures live <= ds
    ensures forall i :: 0 <= i < |live| ==> live[i].tag != DT_NULL
    ensures |live| < |ds| ==> ds[|live|].tag == DT_NULL
  {
    if |ds| == 0 || ds[0].tag == DT_NULL then [] else [ds[0]] + Live(ds[1..])
  }

  /** Reference meaning of "the last occurrence wins": the value of the last
      entry carrying `tag`, or `dflt` when no entry carries it. */
  function LastValue(ds: seq<DynEntry>, tag: int, dflt: Word): (v: Word)
    ensures (forall i :: 0 <= i < |ds| ==> ds[i].tag != tag) ==> v == dflt
    ensures (exists i :: 0 <= i < |ds| && ds[i].tag == tag) ==>
              exists i :: 0 <= i < |ds| && ds[i].tag == tag && v == ds[i].val
                && forall j :: i < j < |ds| ==> ds[j].tag != tag
  {
    if |ds| == 0 then dflt
    else if ds[|ds| - 1].tag == tag then ds[|ds| - 1].val
    else LastValue(ds[..|ds| - 1], tag, dflt)
  }

  /** Folding one more entry in at the front changes only the default. */
  lemma {:induction false} LastValueCons(d: DynEntry, ds: seq<DynEntry>, tag: int, dflt: Word)
    ensures LastValue([d] + ds, tag, dflt) == LastValue(ds, tag, if d.tag == tag then d.val else dflt)
    decreases |ds|
  {
    var whole := [d] + ds;
    if |ds| == 0 {
      assert whole[..0] == [];
    } else {
      var front := ds[..|ds| - 1];
      assert whole[..|whole| - 1] == [d] + front;
      assert whole[|whole| - 1] == ds[|ds| - 1];
      if ds[|ds| - 1].tag != tag {
        LastValueCons(d, front, tag, dflt);
      }
    }
  }

  /** The `for` loop over the dynamic array, from table `t`: it stops at the
      first `DT_NULL`, and each recorded field ends up holding the value of
      the last live entry with its tag (the field's old value when there is
      none). */
  function Scan(t: ProcTables, ds: seq<DynEntry>): (r: ProcTables)
    ensures r.symEntNum == t.symEntNum
    ensures forall tag :: Recorded(tag) ==> Field(r, tag) == LastValue(Live(ds), tag, Field(t, tag))
    decreases |ds|
  {
    if |ds| == 0 || ds[0].tag == DT_NULL then t
    else
      var r := Scan(Absorb(t, ds[0]), ds[1..]);
      assert Live(ds) == [ds[0]] + Live(ds[1..]);
      forall tag | Recorded(tag)
        ensures Field(r, tag) == LastValue(Live(ds), tag, Field(t, tag))
      {
        LastValueCons(ds[0], Live(ds[1..]), tag, Field(t, tag));
      }
      r
  }

  /** The live entries of a possibly missing (`_DYNAMIC == NULL`) array. */
  function LiveOf(dynamic: Option<seq<DynEntry>>): seq<DynEntry> {
    match dynamic
    case None => []
    case Some(ds) => Live(ds)
  }

  /** Address of word 1 of the hash table (the `nchain` word, which equals
      the number of symbol table entries). */
  function HashCountAddr(hash: Word): Word {
    NextWord(hash)
  }

  /** The hash table the dynamic array names, if any, is mapped: the C code
      reads its second word unconditionally. */
  predicate HashReadable(dynamic: Option<seq<DynEntry>>, mem: Memory) {
    var hash := LastValue(LiveOf(dynamic), DT_HASH, 0);
    hash != NULL ==> HashCountAddr(hash) in mem
  }

  /** `get_proc_tables`. A build without ELF support leaves the table as it
      was. Otherwise the table is rebuilt from zero: every recorded field is
      the value of the last live entry with its tag (zero if absent), and the
      entry count is word 1 of the hash table when there is one, else 0. */
  function GetProcTables(elf: bool, prev: ProcTables, dynamic: Option<seq<DynEntry>>, mem: Memory): (t: ProcTables)
    requires elf ==> HashReadable(dynamic, mem)
    ensures !elf ==> t == prev
    ensures elf ==> forall tag :: Recorded(tag) ==> Field(t, tag) == LastValue(LiveOf(dynamic), tag, 0)
    ensures elf ==> t.symHash == LastValue(LiveOf(dynamic), DT_HASH, 0)
    ensures elf ==> t.symEntNum == (if t.symHash != NULL then Int32(mem[HashCountAddr(t.symHash)]) else 0)
  {
    if !elf then prev
    else
      var s := match dynamic
               case None => ZeroTables
               case Some(ds) => Scan(ZeroTables, ds);
      assert Field(s, DT_HASH) == LastValue(LiveOf(dynamic), DT_HASH, 0);
      if s.symHash != NULL then s.(symEntNum := Int32(mem[HashCountAddr(s.symHash)])) else s
  }

  /** Two tables agree when every recorded field and the entry count agree. */
  lemma TablesExt(a: ProcTables, b: ProcTables)
    requires forall tag :: Recorded(tag) ==> Field(a, tag) == Field(b, tag)
    requires a.symEntNum == b.symEntNum
    ensures a == b
  {
    assert Field(a, DT_SYMTAB) == Field(b, DT_SYMTAB);
    assert Field(a, DT_HASH) == Field(b, DT_HASH);
    assert Field(a, DT_SYMENT) == Field(b, DT_SYMENT);
    assert Field(a, DT_STRTAB) == Field(b, DT_STRTAB);
    assert Field(a, DT_STRSZ) == Field(b, DT_STRSZ);
    assert Field(a, DT_DEBUG) == Field(b, DT_DEBUG);
    assert Field(a, DT_PLTGOT) == Field(b, DT_PLTGOT);
  }

  /** The loaded table depends only on the entries before the first
      `DT_NULL`: whatever follows the terminator is never looked at. */
  lemma OnlyLiveEntriesMatter(prev: ProcTables, ds1: seq<DynEntry>, ds2: seq<DynEntry>, mem: Memory)
    requires Live(ds1) == Live(ds2)
    requires HashReadable(Some(ds1), mem)
    ensures GetProcTables(true, prev, Some(ds1), mem) == GetProcTables(true, prev, Some(ds2), mem)
  {
    TablesExt(GetProcTables(true, prev, Some(ds1), mem), GetProcTables(true, prev, Some(ds2), mem));
  }

  /** Entries placed after a `DT_NULL` terminator do not change the table. */
  lemma {:induction false} TerminatorHidesTail(ds: seq<DynEntry>, v: Word, junk: seq<DynEntry>)
    requires forall i :: 0 <= i < |ds| ==> ds[i].tag != DT_NULL
    ensures Live(ds + [DynEntry(DT_NULL, v)] + junk) == ds
    decreases |ds|
  {
    if |ds| > 0 {
      var whole := ds + [DynEntry(DT_NULL, v)] + junk;
      assert whole[1..] == ds[1..] + [DynEntry(DT_NULL, v)] + junk;
      TerminatorHidesTail(ds[1..], v, junk);
    }
  }

  /** Entries before which no `DT_NULL` occurs are all live. */
  lemma {:induction false} LiveAppend(xs: seq<DynEntry>, ys: seq<DynEntry>)
    requires forall i :: 0 <= i < |xs| ==> xs[i].tag != DT_NULL
    ensures Live(xs + ys) == xs + Live(ys)
    decreases |xs|
  {
    if |xs| > 0 {
      assert (xs + ys)[0] == xs[0];
      assert (xs + ys)[1..] == xs[1..] + ys;
      LiveAppend(xs[1..], ys);
      assert xs == [xs[0]] + xs[1..];
    } else {
      assert xs + ys == ys;
    }
  }

  /** Entries that do not carry the tag, appended at the end, do not change its last value. */
  lemma {:induction false} LastValueIgnoresOthers(xs: seq<DynEntry>, ys: seq<DynEntry>, tag: int, dflt: Word)
    requires forall i :: 0 <= i < |ys| ==> ys[i].tag != tag
    ensures LastValue(xs + ys, tag, dflt) == LastValue(xs, tag, dflt)
    decreases |ys|
  {
    if |ys| > 0 {
      var whole := xs + ys;
      assert whole[..|whole| - 1] == xs + ys[..|ys| - 1];
      assert whole[|whole| - 1] == ys[|ys| - 1];
      LastValueIgnoresOthers(xs, ys[..|ys| - 1], tag, dflt);
    } else {
      assert xs + ys == xs;
    }
  }

  /** A later occurrence of a tag overrides every earlier one. */
  lemma LaterOccurrenceWins(prev: ProcTables, ds: seq<DynEntry>, tag: int, v: Word, rest: seq<DynEntry>, mem: Memory)
    requires Recorded(tag)
    requires forall i :: 0 <= i < |ds| ==> ds[i].tag != DT_NULL
    requires forall i :: 0 <= i < |rest| ==> rest[i].tag != tag
    requires HashReadable(Some(ds + [DynEntry(tag, v)] + rest), mem)
    ensures Field(GetProcTables(true, prev, Some(ds + [DynEntry(tag, v)] + rest), mem), tag) == v
  {
    var front := ds + [DynEntry(tag, v)];
    assert ds + [DynEntry(tag, v)] + rest == front + rest;
    LiveAppend(front, rest);
    var live := Live(rest);
    assert forall i :: 0 <= i < |live| ==> live[i] == rest[i];
    LastValueIgnoresOthers(front, live, tag, 0);
  }

  /** Loading twice gives the same table as loading once: an ELF build
      rebuilds the table from zero, ignoring what it held; a build without
      ELF support never touches it. */
  lemma LoadIsIdempotent(elf: bool, prev: ProcTables, dynamic: Option<seq<DynEntry>>, mem: Memory)
    requires elf ==> HashReadable(dynamic, mem)
    ensures GetProcTables(elf, GetProcTables(elf, prev, dynamic, mem), dynamic, mem)
            == GetProcTables(elf, prev, dynamic, mem)
  {
    if elf {
      TablesExt(GetProcTables(elf, GetProcTables(elf, prev, dynamic, mem), dynamic, mem),
                GetProcTables(elf, prev, dynamic, mem));
    }
  }
}
