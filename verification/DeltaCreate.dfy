/**
 * The delta encoder: literals gathered behind a count byte, copies found
 * through the index, and an output buffer that grows as needed.
 */
module DeltaCreate {
  import opened DeltaFormat
  import opened Buckets
  import R = Rabin

  // ----- the output buffer -----

  class Writer {
    var out: array<byte>
    var outpos: nat

    ghost predicate Ok()
      reads this
    {
      outpos <= out.Length
    }

    /** What has been written so far. */
    ghost function Text(): (s: seq<byte>)
      requires Ok()
      reads this, out
      ensures |s| == outpos
    {
      out[..outpos]
    }

    constructor (size: nat)
      ensures Ok() && fresh(out) && out.Length == size && Text() == []
    {
      out := new byte[size];
      outpos := 0;
    }

    method Put(b: byte)
      requires Ok() && outpos < out.Length
      modifies this`outpos, out
      ensures Ok() && Text() == old(Text()) + [b]
    {
      out[outpos] := b;
      outpos := outpos + 1;
    }

    /** Leaves one byte to be filled in later. */
    method Skip()
      requires Ok() && outpos < out.Length
      modifies this`outpos
      ensures Ok() && outpos == old(outpos) + 1 && Text()[..old(outpos)] == old(Text())
    {
      outpos := outpos + 1;
    }

    method Drop()
      requires Ok() && outpos > 0
      modifies this`outpos
      ensures Ok() && Text() == old(Text())[..old(outpos) - 1]
    {
      outpos := outpos - 1;
    }

    /** Stores a byte anywhere in the buffer; past what has been written it does not show. */
    method Set(i: nat, b: byte)
      requires Ok() && i < out.Length
      modifies out
      ensures Ok() && Text() == if i < outpos then old(Text())[i := b] else old(Text())
    {
      out[i] := b;
    }

    /** Moves what has been written to a buffer of another size. */
    method Resize(size: nat)
      requires Ok() && outpos <= size
      modifies this`out
      ensures Ok() && fresh(out) && out.Length == size && Text() == old(Text())
    {
      var bigger := new byte[size];
      var i := 0;
      while i < outpos
        invariant i <= outpos && out == old(out) && bigger[..i] == out[..i]
      {
        bigger[i] := out[i];
        i := i + 1;
      }
      out := bigger;
    }
  }

  /** Writes a size header. */
  method PutHeader(w: Writer, n: nat)
    requires w.Ok() && w.outpos + |HeaderBytes(n)| <= w.out.Length
    modifies w`outpos, w.out
    ensures w.Ok() && w.Text() == old(w.Text()) + HeaderBytes(n)
  {
    var i := n;
    while i >= 0x80
      invariant w.Ok() && w.outpos + |HeaderBytes(i)| <= w.out.Length
      invariant w.Text() + HeaderBytes(i) == old(w.Text()) + HeaderBytes(n)
    {
      ghost var before := w.Text();
      w.Put(i % 0x80 + 0x80);
      assert before + HeaderBytes(i) == before + [i % 0x80 + 0x80] + HeaderBytes(i / 0x80);
      i := i / 0x80;
    }
    w.Put(i);
  }

  /** Writes an operand byte if it is not zero, and notes it in the command. */
  method PutOperand(w: Writer, b: byte, command: nat, mask: nat) returns (c: nat)
    requires w.Ok() && w.outpos < w.out.Length
    modifies w`outpos, w.out
    ensures w.Ok() && w.Text() == old(w.Text()) + Operand(b) && c == command + Flag(b, mask)
  {
    c := command;
    if b != 0 {
      w.Put(b);
      c := c + mask;
    }
  }

  /** Writes a copy instruction from its operand bytes; the command byte is filled in last. */
  method PutCopyBytes(w: Writer, b0: byte, b1: byte, b2: byte, b3: byte, l0: byte, l1: byte)
    requires w.Ok() && w.outpos + 7 <= w.out.Length
    modifies w`outpos, w.out
    ensures w.Ok() && w.Text() == old(w.Text()) + CopyBytes(b0, b1, b2, b3, l0, l1)
  {
    var op := w.outpos;
    w.Skip();
    ghost var slot := w.Text();
    var i := 0x80;
    i := PutOperand(w, b0, i, 0x01);
    i := PutOperand(w, b1, i, 0x02);
    i := PutOperand(w, b2, i, 0x04);
    i := PutOperand(w, b3, i, 0x08);
    i := PutOperand(w, l0, i, 0x10);
    i := PutOperand(w, l1, i, 0x20);
    w.Set(op, i);
    FillSlot(old(w.Text()), slot, i, Operand(b0), Operand(b1), Operand(b2), Operand(b3), Operand(l0), Operand(l1));
  }

  lemma FillSlot(text: seq<byte>, slot: seq<byte>, i: byte, o0: seq<byte>, o1: seq<byte>, o2: seq<byte>,
                 o3: seq<byte>, o4: seq<byte>, o5: seq<byte>)
    requires |slot| == |text| + 1 && slot[..|text|] == text
    ensures (slot + o0 + o1 + o2 + o3 + o4 + o5)[|text| := i] == text + ([i] + o0 + o1 + o2 + o3 + o4 + o5)
  {
    var o := o0 + o1 + o2 + o3 + o4 + o5;
    assert slot + o0 + o1 + o2 + o3 + o4 + o5 == slot + o;
    assert [i] + o0 + o1 + o2 + o3 + o4 + o5 == [i] + o;
    assert (slot + o)[|text| := i] == text + ([i] + o);
  }

  method PutCopy(w: Writer, off: nat, len: nat)
    requires w.Ok() && w.outpos + 7 <= w.out.Length
    modifies w`outpos, w.out
    ensures w.Ok() && w.Text() == old(w.Text()) + OpBytes(Copy(off, len)) && w.outpos <= old(w.outpos) + 7
  {
    PutCopyBytes(w, Byte0(off), Byte1(off), Byte2(off), Byte3(off), Byte0(len), Byte1(len));
  }

  // ----- matches -----

  /** How far two texts agree from given positions. */
  function Agreeing(src: seq<byte>, p: nat, trg: seq<byte>, q: nat): (n: nat)
    requires p <= |src| && q <= |trg|
    ensures p + n <= |src| && q + n <= |trg|
    decreases |src| - p
  {
    if p < |src| && q < |trg| && src[p] == trg[q] then 1 + Agreeing(src, p + 1, trg, q + 1) else 0
  }

  lemma {:induction false} AgreeingMatches(src: seq<byte>, p: nat, trg: seq<byte>, q: nat)
    requires p <= |src| && q <= |trg|
    ensures MatchAt(src, p, trg, q, Agreeing(src, p, trg, q))
    decreases |src| - p
  {
    if p < |src| && q < |trg| && src[p] == trg[q] {
      AgreeingMatches(src, p + 1, trg, q + 1);
      var n := Agreeing(src, p + 1, trg, q + 1);
      assert src[p..p + 1 + n] == [src[p]] + src[p + 1..p + 1 + n];
      assert trg[q..q + 1 + n] == [trg[q]] + trg[q + 1..q + 1 + n];
    }
  }

  /** Counts the bytes that agree. */
  method Extend(src: seq<byte>, p: nat, trg: seq<byte>, q: nat) returns (n: nat)
    requires p <= |src| && q <= |trg|
    ensures n == Agreeing(src, p, trg, q)
  {
    n := 0;
    var size := if |src| - p > |trg| - q then |trg| - q else |src| - p;
    while n < size && src[p + n] == trg[q + n]
      invariant n <= size
      invariant Agreeing(src, p, trg, q) == n + Agreeing(src, p + n, trg, q + n)
    {
      n := n + 1;
    }
  }

  /** `src` at `moff` repeats the `msize` bytes of `trg` at `data`. */
  predicate MatchAt(src: seq<byte>, moff: nat, trg: seq<byte>, data: nat, msize: nat) {
    moff + msize <= |src| && data + msize <= |trg| && src[moff..moff + msize] == trg[data..data + msize]
  }

  /** The entries point into the source. */
  predicate Inside(src: seq<byte>, entries: seq<Entry<R.Word>>) {
    forall k :: 0 <= k < |entries| ==> entries[k].ptr < |src|
  }

  /** If entry `k` has fingerprint `val`, it matches no more than `msize` bytes. */
  predicate BeatsEntry(src: seq<byte>, e: Entry<R.Word>, trg: seq<byte>, data: nat, val: R.Word, msize: nat)
    requires data <= |trg| && e.ptr < |src|
  {
    e.val == val ==> Agreeing(src, e.ptr, trg, data) <= msize
  }

  /** No entry of the chain with fingerprint `val` matches more than `msize` bytes. */
  predicate Beats(src: seq<byte>, entries: seq<Entry<R.Word>>, chain: seq<nat>, trg: seq<byte>, data: nat,
                  val: R.Word, msize: nat)
    requires data <= |trg| && Inside(src, entries) && forall k :: 0 <= k < |chain| ==> chain[k] < |entries|
  {
    forall k :: 0 <= k < |chain| ==> BeatsEntry(src, entries[chain[k]], trg, data, val, msize)
  }

  /** Once an entry is too near the end of the base to do better, so are all that follow it. */
  lemma BeatsRest(r: Rules<R.Word>, src: seq<byte>, entries: seq<Entry<R.Word>>, c: seq<nat>, p: nat,
                  trg: seq<byte>, data: nat, val: R.Word, msize: nat)
    requires data <= |trg| && Inside(src, entries) && forall k :: 0 <= k < |c| ==> c[k] < |entries|
    requires Descends(r, entries, c) && p < |c|
    requires Beats(src, entries, c[..p], trg, data, val, msize)
    requires |src| - entries[c[p]].ptr <= msize || |trg| - data <= msize
    ensures Beats(src, entries, c, trg, data, val, msize)
  {
    forall k | 0 <= k < |c| ensures BeatsEntry(src, entries[c[k]], trg, data, val, msize) {
      if k < p {
        assert c[..p][k] == c[k];
      }
    }
  }

  /** One step along a chain. */
  lemma ChainStep(r: Rules<R.Word>, entries: seq<Entry<R.Word>>, entry: nat, c: seq<nat>, p: nat)
    requires Linked(r, entries) && entry < |entries| && p <= |c| && Chain(entries, entry) == c[p..]
    ensures p < |c| && c[p] == entry && c[..p + 1] == c[..p] + [entry]
    ensures entries[entry].next < entry && Chain(entries, entries[entry].next) == c[p + 1..]
  {
    assert LinkOk(r, entries, entry);
    assert c[p] == c[p..][0] == entry;
    assert c[p..][1..] == c[p + 1..];
  }

  const GOOD_ENOUGH: nat := 4096

  /** Entry `k` of the chain has fingerprint `val`, and agrees with more bytes than any candidate before it. */
  ghost predicate FirstBest(src: seq<byte>, entries: seq<Entry<R.Word>>, chain: seq<nat>, trg: seq<byte>, data: nat,
                            val: R.Word, k: nat, msize: nat)
    requires data <= |trg| && Inside(src, entries) && forall k :: 0 <= k < |chain| ==> chain[k] < |entries|
  {
    && k < |chain| && entries[chain[k]].val == val && Agreeing(src, entries[chain[k]].ptr, trg, data) == msize
    && forall j :: 0 <= j < k && entries[chain[j]].val == val ==> Agreeing(src, entries[chain[j]].ptr, trg, data) < msize
  }

  /** The match is the one that was in hand, or the first of the longest of the candidates that were looked at. */
  ghost predicate Picked(src: seq<byte>, entries: seq<Entry<R.Word>>, chain: seq<nat>, trg: seq<byte>, data: nat,
                         val: R.Word, moff0: nat, msize0: nat, moff: nat, msize: nat)
    requires data <= |trg| && Inside(src, entries) && forall k :: 0 <= k < |chain| ==> chain[k] < |entries|
  {
    || (moff == moff0 && msize == msize0)
    || (msize > msize0 && exists k: nat :: FirstBest(src, entries, chain, trg, data, val, k, msize) && moff == entries[chain[k]].ptr)
  }

  /** A longer candidate is the new pick. */
  lemma PickedNext(src: seq<byte>, entries: seq<Entry<R.Word>>, c: seq<nat>, p: nat, trg: seq<byte>, data: nat,
                   val: R.Word, moff0: nat, msize0: nat, moff: nat, msize: nat)
    requires data <= |trg| && Inside(src, entries) && (forall k :: 0 <= k < |c| ==> c[k] < |entries|) && p < |c|
    requires Beats(src, entries, c[..p], trg, data, val, msize) && msize0 <= msize && entries[c[p]].val == val
    requires msize < Agreeing(src, entries[c[p]].ptr, trg, data)
    ensures Picked(src, entries, c, trg, data, val, moff0, msize0, entries[c[p]].ptr, Agreeing(src, entries[c[p]].ptr, trg, data))
  {
    forall j | 0 <= j < p && entries[c[j]].val == val
      ensures Agreeing(src, entries[c[j]].ptr, trg, data) < Agreeing(src, entries[c[p]].ptr, trg, data)
    {
      assert c[..p][j] == c[j];
      assert BeatsEntry(src, entries[c[..p][j]], trg, data, val, msize);
    }
    assert FirstBest(src, entries, c, trg, data, val, p, Agreeing(src, entries[c[p]].ptr, trg, data));
  }

  lemma BeatsNext(src: seq<byte>, entries: seq<Entry<R.Word>>, c: seq<nat>, p: nat, trg: seq<byte>, data: nat,
                  val: R.Word, msize: nat, more: nat)
    requires data <= |trg| && Inside(src, entries) && (forall k :: 0 <= k < |c| ==> c[k] < |entries|) && p < |c|
    requires Beats(src, entries, c[..p], trg, data, val, msize) && msize <= more
    requires BeatsEntry(src, entries[c[p]], trg, data, val, more)
    ensures Beats(src, entries, c[..p + 1], trg, data, val, more)
  {
    var d := c[..p + 1];
    forall k | 0 <= k < |d| ensures BeatsEntry(src, entries[d[k]], trg, data, val, more) {
      if k < p {
        assert c[..p][k] == c[k] && BeatsEntry(src, entries[c[..p][k]], trg, data, val, msize);
      }
    }
  }

  /**
   * Searches a bucket for a longer match than the one in hand. The result is
   * the first of the longest candidates; unless it is long enough to stop at,
   * no candidate of the bucket is longer, although the search gives up at the
   * first candidate that lies too near the end of the base.
   */
  method FindMatch(ghost r: Rules<R.Word>, src: seq<byte>, entries: seq<Entry<R.Word>>, head: int,
                   trg: seq<byte>, data: nat, val: R.Word, moff0: nat, msize0: nat)
    returns (moff: nat, msize: nat)
    requires Linked(r, entries) && head < |entries| && data < |trg|
    requires Inside(src, entries)
    requires MatchAt(src, moff0, trg, data, msize0)
    ensures MatchAt(src, moff, trg, data, msize) && msize >= msize0
    ensures msize >= GOOD_ENOUGH || Beats(src, entries, Chain(entries, head), trg, data, val, msize)
    ensures Picked(src, entries, Chain(entries, head), trg, data, val, moff0, msize0, moff, msize)
  {
    moff, msize := moff0, msize0;
    var entry := head;
    ghost var c := Chain(entries, head);
    ghost var p := 0;
    ChainDescends(r, entries, head);
    while entry >= 0
      invariant entry < |entries| && 0 <= p <= |c| && Chain(entries, entry) == c[p..]
      invariant MatchAt(src, moff, trg, data, msize) && msize >= msize0
      invariant Beats(src, entries, c[..p], trg, data, val, msize)
      invariant Picked(src, entries, c, trg, data, val, moff0, msize0, moff, msize)
      decreases entry
    {
      ChainStep(r, entries, entry, c, p);
      var e := entries[entry];
      ghost var before := msize;
      if e.val == val {
        var size := if |src| - e.ptr > |trg| - data then |trg| - data else |src| - e.ptr;
        if size <= msize {
          BeatsRest(r, src, entries, c, p, trg, data, val, msize);
          return;
        }
        var n := Extend(src, e.ptr, trg, data);
        if msize < n {
          AgreeingMatches(src, e.ptr, trg, data);
          PickedNext(src, entries, c, p, trg, data, val, moff0, msize0, moff, msize);
          msize, moff := n, e.ptr;
          if msize >= GOOD_ENOUGH {
            return;
          }
        }
      }
      BeatsNext(src, entries, c, p, trg, data, val, before, msize);
      entry := e.next;
      p := p + 1;
    }
    assert c[..p] == c;
  }
}
