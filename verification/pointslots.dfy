/** The layout of gradient points in a style record, independent of what a
    slot holds: four slots per point, the colour three times (twice for
    older readers) and then the offset. The writer interleaves the two
    arrays this way; the reader takes every fourth slot back out. */
module PointSlots {
  /** The slots of the first `k` points: point `j` occupies slots
      `4j .. 4j + 3` as colour, colour, colour, offset. */
  function Interleave<T>(colors: seq<T>, offsets: seq<T>, k: nat): (ws: seq<T>)
    requires k <= |colors| && k <= |offsets|
    ensures |ws| == 4 * k
  {
    if k == 0 then []
    else
      var c := colors[k - 1];
      Interleave(colors, offsets, k - 1) + [c, c, c, offsets[k - 1]]
  }

  /** Point `j` sits at slots `4j .. 4j + 3`: colour, colour, colour,
      offset. */
  lemma {:induction false} InterleaveLayout<T>(colors: seq<T>, offsets: seq<T>, k: nat)
    requires k <= |colors| && k <= |offsets|
    ensures forall j :: 0 <= j < k ==>
              && Interleave(colors, offsets, k)[4 * j] == colors[j]
              && Interleave(colors, offsets, k)[4 * j + 1] == colors[j]
              && Interleave(colors, offsets, k)[4 * j + 2] == colors[j]
              && Interleave(colors, offsets, k)[4 * j + 3] == offsets[j]
  {
    if k > 0 {
      InterleaveLayout(colors, offsets, k - 1);
      var ws := Interleave(colors, offsets, k);
      var front := Interleave(colors, offsets, k - 1);
      assert ws == front + ws[4 * (k - 1)..];
      forall j | 0 <= j < k - 1
        ensures && ws[4 * j] == colors[j] && ws[4 * j + 1] == colors[j]
                && ws[4 * j + 2] == colors[j] && ws[4 * j + 3] == offsets[j]
      {
        assert ws[4 * j] == front[4 * j];
        assert ws[4 * j + 1] == front[4 * j + 1];
        assert ws[4 * j + 2] == front[4 * j + 2];
        assert ws[4 * j + 3] == front[4 * j + 3];
      }
    }
  }

  /** The colours of point slots `ps`: the first slot of each point. */
  function ReadColors<T>(ps: seq<T>): seq<T>
    decreases |ps|
  {
    if |ps| < 4 then [] else ReadColors(ps[..|ps| - 4]) + [ps[|ps| - 4]]
  }

  /** The offsets of point slots `ps`: the fourth slot of each point. */
  function ReadOffsets<T>(ps: seq<T>): seq<T>
    decreases |ps|
  {
    if |ps| < 4 then [] else ReadOffsets(ps[..|ps| - 4]) + [ps[|ps| - 1]]
  }

  /** Colour `k` of `n` points' slots is slot `4k`. */
  lemma {:induction false} ColorsLayout<T>(ps: seq<T>, n: nat)
    requires |ps| == 4 * n
    ensures |ReadColors(ps)| == n
    ensures forall k :: 0 <= k < n ==> ReadColors(ps)[k] == ps[4 * k]
    decreases n
  {
    if n > 0 {
      var front := ps[..|ps| - 4];
      ColorsLayout(front, n - 1);
      assert ReadColors(ps) == ReadColors(front) + [ps[|ps| - 4]];
      forall k | 0 <= k < n ensures ReadColors(ps)[k] == ps[4 * k] {
        if k < n - 1 {
          assert front[4 * k] == ps[4 * k];
        }
      }
    }
  }

  /** Offset `k` of `n` points' slots is slot `4k + 3`. */
  lemma {:induction false} OffsetsLayout<T>(ps: seq<T>, n: nat)
    requires |ps| == 4 * n
    ensures |ReadOffsets(ps)| == n
    ensures forall k :: 0 <= k < n ==> ReadOffsets(ps)[k] == ps[4 * k + 3]
    decreases n
  {
    if n > 0 {
      var front := ps[..|ps| - 4];
      OffsetsLayout(front, n - 1);
      assert ReadOffsets(ps) == ReadOffsets(front) + [ps[|ps| - 1]];
      forall k | 0 <= k < n ensures ReadOffsets(ps)[k] == ps[4 * k + 3] {
        if k < n - 1 {
          assert front[4 * k + 3] == ps[4 * k + 3];
        }
      }
    }
  }

  /** Reading back the slots of the first `k` points gives their colours. */
  lemma {:induction false} ColorsReadBack<T>(colors: seq<T>, offsets: seq<T>, k: nat)
    requires k <= |colors| && k <= |offsets|
    ensures ReadColors(Interleave(colors, offsets, k)) == colors[..k]
  {
    if k > 0 {
      var ws := Interleave(colors, offsets, k);
      ColorsReadBack(colors, offsets, k - 1);
      assert ws[..|ws| - 4] == Interleave(colors, offsets, k - 1);
      assert colors[..k] == colors[..k - 1] + [colors[k - 1]];
    }
  }

  /** Reading back the slots of the first `k` points gives their offsets. */
  lemma {:induction false} OffsetsReadBack<T>(colors: seq<T>, offsets: seq<T>, k: nat)
    requires k <= |colors| && k <= |offsets|
    ensures ReadOffsets(Interleave(colors, offsets, k)) == offsets[..k]
  {
    if k > 0 {
      var ws := Interleave(colors, offsets, k);
      OffsetsReadBack(colors, offsets, k - 1);
      assert ws[..|ws| - 4] == Interleave(colors, offsets, k - 1);
      assert offsets[..k] == offsets[..k - 1] + [offsets[k - 1]];
    }
  }

  /** Reading back all the points gives both arrays whole. */
  lemma ReadBackWhole<T>(colors: seq<T>, offsets: seq<T>)
    requires |colors| == |offsets|
    ensures ReadColors(Interleave(colors, offsets, |colors|)) == colors
    ensures ReadOffsets(Interleave(colors, offsets, |colors|)) == offsets
  {
    ColorsReadBack(colors, offsets, |colors|);
    OffsetsReadBack(colors, offsets, |colors|);
    assert colors[..|colors|] == colors;
    assert offsets[..|colors|] == offsets;
  }
}
