/** Call capture (`get_call_list`) and the call backtrace built from it
    (`print_simple_backtrace`). The compiler's `__builtin_return_address`
    is an oracle: `ra[k]` is the return address at call depth `k + 2`. */
module CallCapture {
  import opened Machine
  import opened Resolver
  import opened Report

  /** `MAX_CALL_DEPTH`. */
  const MaxCallDepth: nat := 32
  /** Slots of the static `call_list` buffer. */
  const BufferSlots: nat := MaxCallDepth + 1
  /** Depths probed: 2 .. 32. */
  const Probes: nat := MaxCallDepth - 1

  /** Index of the first null word, or the length when there is none. */
  function FirstNull(ws: seq<Word>): (t: nat)
    ensures t <= |ws|
    ensures forall k :: 0 <= k < t ==> ws[k] != NULL
    ensures t < |ws| ==> ws[t] == NULL
  {
    if |ws| == 0 || ws[0] == NULL then 0 else 1 + FirstNull(ws[1..])
  }

  /** `FirstNull` is pinned down by its contract. */
  lemma FirstNullAt(ws: seq<Word>, t: nat)
    requires t < |ws| && ws[t] == NULL
    requires forall k :: 0 <= k < t ==> ws[k] != NULL
    ensures FirstNull(ws) == t
  {
  }

  /** `get_call_list` on the static buffer `buf` (33 slots). Without the
      builtin the buffer is returned untouched. Otherwise the list holds the
      return addresses at depths 2, 3, ... in order up to the first null one,
      at most 31 of them, then a null terminator at index 31 or below;
      the slots past the terminator keep what an earlier capture left there. */
  function GetCallList(enabled: bool, buf: seq<Word>, ra: seq<Word>): (r: seq<Word>)
    requires |buf| == BufferSlots && |ra| == Probes
    ensures |r| == BufferSlots
    ensures !enabled ==> r == buf
    ensures enabled ==> FirstNull(r) <= Probes
    ensures enabled ==> r[..FirstNull(r)] == ra[..FirstNull(r)]
    ensures enabled && FirstNull(r) < Probes ==> ra[FirstNull(r)] == NULL
    ensures enabled ==> r[FirstNull(r) + 1..] == buf[FirstNull(r) + 1..]
  {
    if !enabled then buf
    else
      var t := FirstNull(ra);
      var r := ra[..t] + [NULL] + buf[t + 1..];
      FirstNullAt(r, t);
      r
  }

  /** The static buffer starts out all null, so it is terminated. */
  lemma InitialBufferTerminated()
    ensures FirstNull(seq(BufferSlots, _ => NULL)) == 0
  {
  }

  /** One line per entry from index `from` up to the terminator, each
      carrying its index, the address and its attribution. */
  function CallLines(n: Namer, buf: seq<Word>, from: nat): (ls: seq<Line>)
    requires NamerReadable(n)
    requires from <= FirstNull(buf)
    ensures |ls| == FirstNull(buf) - from
    ensures forall k :: 0 <= k < |ls| ==>
              ls[k] == Call(from + k, buf[from + k], Attribute(n, FindFuncSymbol(n.sym, buf[from + k]), buf[from + k]))
    decreases FirstNull(buf) - from
  {
    if from == FirstNull(buf) then []
    else [Call(from, buf[from], Attribute(n, FindFuncSymbol(n.sym, buf[from]), buf[from]))] + CallLines(n, buf, from + 1)
  }

  /** What a call backtrace produces: its lines and the static buffer after it. */
  datatype Capture = Capture(lines: seq<Line>, buf: seq<Word>)

  /** `print_simple_backtrace`. Without the builtin it emits nothing and does
      not touch the buffer. Otherwise it captures afresh; if entry 0 is null
      it emits nothing, else the two headers and exactly one line per entry
      before the terminator, indexed from 0. */
  function PrintSimpleBacktrace(enabled: bool, n: Namer, buf: seq<Word>, ra: seq<Word>): (c: Capture)
    requires NamerReadable(n)
    requires |buf| == BufferSlots && |ra| == Probes
    ensures !enabled ==> c == Capture([], buf)
    ensures enabled ==> c.buf == GetCallList(true, buf, ra)
    ensures enabled && c.buf[0] == NULL ==> c.lines == []
    ensures enabled && c.buf[0] != NULL ==>
              && |c.lines| == 2 + FirstNull(c.buf)
              && c.lines[0] == CallHeader && c.lines[1] == CallColumns
              && forall k :: 0 <= k < FirstNull(c.buf) ==>
                   c.lines[2 + k] == Call(k, ra[k], Attribute(n, FindFuncSymbol(n.sym, ra[k]), ra[k]))
  {
    if !enabled then Capture([], buf)
    else
      var b := GetCallList(true, buf, ra);
      if b[0] == NULL then Capture([], b)
      else
        var ls := CallLines(n, b, 0);
        assert forall k :: 0 <= k < FirstNull(b) ==> b[k] == ra[k] by {
          assert b[..FirstNull(b)] == ra[..FirstNull(b)];
          forall k | 0 <= k < FirstNull(b) ensures b[k] == ra[k] {
            assert b[..FirstNull(b)][k] == b[k];
          }
        }
        Capture([CallHeader, CallColumns] + ls, b)
  }
}
