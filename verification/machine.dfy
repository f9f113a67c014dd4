/** Machine-level vocabulary shared by the crash self-diagnosis model:
    the 32-bit words of the process image, its word-addressed memory
    and the build configuration that selects which parts
    of the diagnostics are compiled in. */
module Machine {

  /** Number of distinct 32-bit words. */
  const WordRange: nat := 0x1_0000_0000

  /** A 32-bit machine word (a pointer, an `Elf32_Word` or a saved register). */
  type Word = w: nat | w < WordRange

  /** Bytes per stored word: the frame walker and the hash table use 4-byte words. */
  const WordSize: nat := 4

  /** The null pointer. */
  const NULL: Word := 0

  /** The mapped words of the process image, keyed by the byte address of each word.
      A read of an address that is not a key faults. */
  type Memory = map<Word, Word>

  /** Address of the word that follows the word at `a`, with 32-bit wrap-around. */
  function NextWord(a: Word): (b: Word)
    ensures a + WordSize < WordRange ==> b == a + WordSize
  {
    (a + WordSize) % WordRange
  }

  /** A 32-bit word read as a C `int` (two's complement). */
  function Int32(w: Word): (i: int)
    ensures -0x8000_0000 <= i < 0x8000_0000
    ensures i >= 0 <==> w < 0x8000_0000
    ensures i % WordRange == w
  {
    if w < 0x8000_0000 then w else w - WordRange
  }

  /** Which optional parts of the diagnostics the build compiled in:
      ELF symbol tables (`_ELF_H`), `__backtrace_symbols` (`HAVE_EXECINFO_H`),
      `__builtin_return_address` (`HAVE__BUILTIN_RETURN_ADDRESS`), a signal
      context argument (`HAVE_SIGCONTEXT`) and the i386 frame walker
      (`_ASMi386_SIGCONTEXT_H`). */
  datatype Build = Build(elf: bool, execinfo: bool, returnAddress: bool, sigcontext: bool, i386: bool)
}
