/**
 * The encoder loop: every delta it returns means its target.
 */
module DeltaEncoder {
  import opened Common
  import opened Tokens
  import opened DeltaFormat
  import opened Buckets
  import opened DeltaIndex
  import opened DeltaCreate
  import opened DeltaTurns

  // ----- what has been encoded -----

  /** The instructions can be written, stay inside the base and produce the first `upto` bytes. */
  ghost predicate Faithful(src: seq<byte>, trg: seq<byte>, ops: seq<Op>, upto: nat) {
    upto <= |trg| && AllEncodable(ops) && All(InRangeOf(src), ops) && Expand(src, ops) == trg[..upto]
  }

  lemma FaithfulStep(src: seq<byte>, trg: seq<byte>, ops: seq<Op>, op: Op, from: nat, upto: nat)
    requires Faithful(src, trg, ops, from) && from <= upto <= |trg|
    requires Encodable(op) && InRange(src, op) && Piece(src, op) == trg[from..upto]
    ensures Faithful(src, trg, ops + [op], upto)
  {
    WriteAllBack(PieceOf(src), ops, op);
    assert trg[..upto] == trg[..from] + trg[from..upto];
  }

  /** Finished text, then — if there are literals — a byte for their count and the literals. */
  predicate Pending(text: seq<byte>, done: seq<byte>, lits: seq<byte>) {
    if lits == [] then text == done
    else |text| == |done| + 1 + |lits| && text[..|done|] == done && text[|done| + 1..] == lits
  }

  /** Where the encoder stands: `inscnt` literals before `data` are pending, the rest is encoded. */
  ghost predicate Standing(header: seq<byte>, text: seq<byte>, src: seq<byte>, trg: seq<byte>,
                           ops: seq<Op>, data: nat, inscnt: nat)
  {
    && inscnt <= data <= |trg| && inscnt < 0x7f
    && Faithful(src, trg, ops, data - inscnt)
    && Pending(text, header + Stream(ops), trg[data - inscnt..data])
  }

  lemma PendingAdd(text: seq<byte>, more: seq<byte>, done: seq<byte>, lits: seq<byte>, b: byte)
    requires Pending(text, done, lits)
    requires if lits == [] then |more| == |text| + 1 && more[..|text|] == text else more == text
    ensures Pending(more + [b], done, lits + [b])
  {
    assert (more + [b])[..|done|] == done;
    assert (more + [b])[|done| + 1..] == lits + [b];
  }

  lemma PendingClose(text: seq<byte>, done: seq<byte>, lits: seq<byte>)
    requires Pending(text, done, lits) && 1 <= |lits| < 0x80
    ensures text[|done| := |lits|] == done + OpBytes(Insert(lits))
  {}

  /** Closing the pending literals makes them an instruction. */
  lemma CloseStanding(header: seq<byte>, text: seq<byte>, src: seq<byte>, trg: seq<byte>,
                      ops: seq<Op>, data: nat, inscnt: nat)
    requires 1 <= inscnt < 0x80 && inscnt <= data <= |trg|
    requires Faithful(src, trg, ops, data - inscnt)
    requires Pending(text, header + Stream(ops), trg[data - inscnt..data])
    ensures
      var op := Insert(trg[data - inscnt..data]);
      Standing(header, text[|text| - inscnt - 1 := inscnt], src, trg, ops + [op], data, 0)
  {
    var op := Insert(trg[data - inscnt..data]);
    FaithfulStep(src, trg, ops, op, data - inscnt, data);
    PendingClose(text, header + Stream(ops), trg[data - inscnt..data]);
    StreamBack(header, ops, op);
  }

  lemma StreamBack(header: seq<byte>, ops: seq<Op>, op: Op)
    ensures header + Stream(ops + [op]) == header + Stream(ops) + OpBytes(op)
  {
    WriteAllBack(WRITE_OP, ops, op);
  }

  /** An instruction written behind finished text. */
  lemma AppendStanding(header: seq<byte>, text: seq<byte>, src: seq<byte>, trg: seq<byte>,
                       ops: seq<Op>, op: Op, from: nat, upto: nat)
    requires Standing(header, text, src, trg, ops, from, 0) && from <= upto <= |trg|
    requires Encodable(op) && InRange(src, op) && Piece(src, op) == trg[from..upto]
    ensures Standing(header, text + OpBytes(op), src, trg, ops + [op], upto, 0)
  {
    FaithfulStep(src, trg, ops, op, from, upto);
    StreamBack(header, ops, op);
  }

  // ----- steps -----

  /** Takes the next target byte as a literal; a full run of 127 is closed. */
  method PutLiteral(w: Writer, ghost header: seq<byte>, ghost src: seq<byte>, trg: seq<byte>, ghost ops: seq<Op>,
                    data: nat, inscnt: nat) returns (cnt: nat, ghost nowOps: seq<Op>)
    requires w.Ok() && w.outpos + 2 <= w.out.Length && data < |trg|
    requires Standing(header, w.Text(), src, trg, ops, data, inscnt)
    modifies w`outpos, w.out
    ensures w.Ok() && Standing(header, w.Text(), src, trg, nowOps, data + 1, cnt)
    ensures w.outpos == old(w.outpos) + (if inscnt == 0 then 2 else 1) && cnt == (inscnt + 1) % 0x7f && Closes(ops, nowOps)
  {
    nowOps, cnt := ops, inscnt;
    ghost var text := w.Text();
    if inscnt == 0 {
      w.Skip();
    }
    LiteralStanding(header, text, w.Text(), src, trg, ops, data, inscnt);
    w.Put(trg[data]);
    cnt := cnt + 1;
    if cnt == 0x7f {
      nowOps := ops + [Insert(trg[data + 1 - cnt..data + 1])];
      w.Set(w.outpos - cnt - 1, cnt);
      cnt := 0;
    }
  }

  /** One more literal is pending, or they make a full run that can be closed. */
  lemma LiteralStanding(header: seq<byte>, text: seq<byte>, more: seq<byte>, src: seq<byte>, trg: seq<byte>,
                        ops: seq<Op>, data: nat, inscnt: nat)
    requires Standing(header, text, src, trg, ops, data, inscnt) && data < |trg|
    requires if inscnt == 0 then |more| == |text| + 1 && more[..|text|] == text else more == text
    ensures |more| > inscnt
    ensures
      var cnt, t := inscnt + 1, more + [trg[data]];
      if cnt < 0x7f then Standing(header, t, src, trg, ops, data + 1, cnt)
      else Standing(header, t[|t| - cnt - 1 := cnt], src, trg, ops + [Insert(trg[data + 1 - cnt..data + 1])], data + 1, 0)
  {
    PendingLiteral(text, more, header + Stream(ops), trg, data, inscnt);
    if inscnt + 1 == 0x7f {
      CloseStanding(header, more + [trg[data]], src, trg, ops, data + 1, inscnt + 1);
    }
  }

  lemma PendingLiteral(text: seq<byte>, more: seq<byte>, done: seq<byte>, trg: seq<byte>, data: nat, inscnt: nat)
    requires inscnt <= data < |trg| && Pending(text, done, trg[data - inscnt..data])
    requires if inscnt == 0 then |more| == |text| + 1 && more[..|text|] == text else more == text
    ensures |more| > inscnt && Pending(more + [trg[data]], done, trg[data - inscnt..data + 1])
  {
    var lits := trg[data - inscnt..data];
    PendingAdd(text, more, done, lits, trg[data]);
    assert trg[data - inscnt..data + 1] == lits + [trg[data]];
  }

  /**
   * Takes pending literals that the base also holds just before the match
   * back into the match. When none is left the count byte goes too, and the
   * count becomes -1.
   */
  method Retreat(w: Writer, ghost header: seq<byte>, src: seq<byte>, trg: seq<byte>, ghost ops: seq<Op>,
                 data0: nat, inscnt0: nat, moff0: nat, msize0: nat)
    returns (data: nat, inscnt: int, moff: nat, msize: nat)
    requires w.Ok() && inscnt0 > 0 && MatchAt(src, moff0, trg, data0, msize0)
    requires Standing(header, w.Text(), src, trg, ops, data0, inscnt0)
    modifies w`outpos
    ensures w.Ok() && (inscnt == -1 || 0 < inscnt <= inscnt0)
    ensures Standing(header, w.Text(), src, trg, ops, data, if inscnt == -1 then 0 else inscnt)
    ensures MatchAt(src, moff, trg, data, msize)
    ensures data == data0 - inscnt0 + (if inscnt == -1 then 0 else inscnt) && data + msize == data0 + msize0
    ensures moff + (data0 - data) == moff0
    ensures w.outpos + (data0 - data) + (if inscnt == -1 then 1 else 0) == old(w.outpos)
    ensures inscnt == -1 || moff == 0 || src[moff - 1] != trg[data - 1]
  {
    ghost var text := w.Text();
    data, inscnt, moff, msize := Overlap(w, src, trg, data0, inscnt0, moff0, msize0);
    TakeBack(header, text, src, trg, ops, data0, inscnt0, inscnt);
    if inscnt == 0 {
      w.Drop();
      inscnt := -1;
    }
  }

  /** Grows the match backwards, dropping one pending literal for each byte. */
  method Overlap(w: Writer, src: seq<byte>, trg: seq<byte>, data0: nat, inscnt0: nat, moff0: nat, msize0: nat)
    returns (data: nat, inscnt: nat, moff: nat, msize: nat)
    requires w.Ok() && inscnt0 <= w.outpos && inscnt0 <= data0 && MatchAt(src, moff0, trg, data0, msize0)
    modifies w`outpos
    ensures w.Ok() && inscnt <= inscnt0 && data == data0 - inscnt0 + inscnt
    ensures w.outpos == old(w.outpos) - inscnt0 + inscnt && w.Text() == old(w.Text())[..w.outpos]
    ensures MatchAt(src, moff, trg, data, msize) && data + msize == data0 + msize0 && moff + (data0 - data) == moff0
    ensures inscnt == 0 || moff == 0 || src[moff - 1] != trg[data - 1]
  {
    data, inscnt, moff, msize := data0, inscnt0, moff0, msize0;
    while inscnt > 0 && moff > 0 && src[moff - 1] == trg[data - 1]
      invariant inscnt <= inscnt0 && data == data0 - inscnt0 + inscnt
      invariant w.Ok() && w.outpos == old(w.outpos) - inscnt0 + inscnt
      invariant MatchAt(src, moff, trg, data, msize) && data + msize == data0 + msize0 && moff + (data0 - data) == moff0
      decreases inscnt
    {
      MatchBack(src, moff, trg, data, msize);
      msize, moff, data := msize + 1, moff - 1, data - 1;
      w.Drop();
      inscnt := inscnt - 1;
    }
  }

  /** Before a copy: literals are taken back as far as possible, and what is left of them is closed. */
  method StepBack(w: Writer, ghost header: seq<byte>, src: seq<byte>, trg: seq<byte>, ghost ops: seq<Op>,
                  data0: nat, inscnt0: nat, moff0: nat, msize0: nat)
    returns (data: nat, moff: nat, msize: nat, ghost nowOps: seq<Op>)
    requires w.Ok() && w.outpos < w.out.Length && MatchAt(src, moff0, trg, data0, msize0)
    requires Standing(header, w.Text(), src, trg, ops, data0, inscnt0)
    modifies w`outpos, w.out
    ensures w.Ok() && Standing(header, w.Text(), src, trg, nowOps, data, 0)
    ensures MatchAt(src, moff, trg, data, msize) && Closes(ops, nowOps)
    ensures data0 - inscnt0 <= data <= data0 && data + msize == data0 + msize0 && moff + (data0 - data) == moff0
    ensures data == data0 - inscnt0 || moff == 0 || src[moff - 1] != trg[data - 1]
    ensures w.outpos + (data0 - data) + (if 0 < inscnt0 == data0 - data then 1 else 0) == old(w.outpos)
  {
    data, moff, msize, nowOps := data0, moff0, msize0, ops;
    if inscnt0 > 0 {
      var inscnt;
      data, inscnt, moff, msize := Retreat(w, header, src, trg, ops, data0, inscnt0, moff0, msize0);
      nowOps := FillCount(w, header, src, trg, ops, data, inscnt);
    }
  }

  /** Stores the count of the pending literals; a count of -1 goes where it does not show. */
  method FillCount(w: Writer, ghost header: seq<byte>, ghost src: seq<byte>, ghost trg: seq<byte>, ghost ops: seq<Op>,
                   ghost data: nat, inscnt: int) returns (ghost nowOps: seq<Op>)
    requires w.Ok() && w.outpos < w.out.Length && (inscnt == -1 || 0 < inscnt)
    requires Standing(header, w.Text(), src, trg, ops, data, if inscnt == -1 then 0 else inscnt)
    modifies w.out
    ensures w.Ok() && Standing(header, w.Text(), src, trg, nowOps, data, 0) && Closes(ops, nowOps)
  {
    nowOps := ops;
    if inscnt > 0 {
      CloseStanding(header, w.Text(), src, trg, ops, data, inscnt);
      nowOps := ops + [Insert(trg[data - inscnt..data])];
    }
    w.Set(w.outpos - inscnt - 1, inscnt % 0x100);
  }

  lemma MatchBack(src: seq<byte>, moff: nat, trg: seq<byte>, data: nat, msize: nat)
    requires MatchAt(src, moff, trg, data, msize) && moff > 0 && data > 0 && src[moff - 1] == trg[data - 1]
    ensures MatchAt(src, moff - 1, trg, data - 1, msize + 1)
  {
    assert src[moff - 1..moff + msize] == [src[moff - 1]] + src[moff..moff + msize];
    assert trg[data - 1..data + msize] == [trg[data - 1]] + trg[data..data + msize];
  }

  /** Fewer literals; without any left, without their count byte either. */
  lemma TakeBack(header: seq<byte>, text: seq<byte>, src: seq<byte>, trg: seq<byte>,
                 ops: seq<Op>, data: nat, inscnt: nat, left: nat)
    requires Standing(header, text, src, trg, ops, data, inscnt) && 0 < inscnt && left <= inscnt
    ensures |text| > inscnt
    ensures
      var cut := if left == 0 then inscnt + 1 else inscnt - left;
      Standing(header, text[..|text| - cut], src, trg, ops, data - inscnt + left, left)
  {
    var done := header + Stream(ops);
    var lits := trg[data - inscnt..data];
    assert trg[data - inscnt..data - inscnt + left] == lits[..left];
    if left > 0 {
      var shorter := text[..|text| - (inscnt - left)];
      assert shorter[|done| + 1..] == text[|done| + 1..][..left];
      assert shorter[..|done|] == done;
    }
  }

  lemma MatchSplit(src: seq<byte>, moff: nat, trg: seq<byte>, data: nat, msize: nat, len: nat)
    requires MatchAt(src, moff, trg, data, msize) && len <= msize
    ensures MatchAt(src, moff, trg, data, len) && MatchAt(src, moff + len, trg, data + len, msize - len)
  {
    assert src[moff..moff + len] == src[moff..moff + msize][..len];
    assert src[moff + len..moff + msize] == src[moff..moff + msize][len..];
    assert trg[data..data + len] == trg[data..data + msize][..len];
    assert trg[data + len..data + msize] == trg[data..data + msize][len..];
  }

  /** Part of a match can be written as a copy; the rest of it is still a match. */
  lemma CopyStanding(header: seq<byte>, text: seq<byte>, now: seq<byte>, src: seq<byte>, trg: seq<byte>, ops: seq<Op>,
                     data: nat, moff: nat, msize: nat, len: nat)
    requires Standing(header, text, src, trg, ops, data, 0) && MatchAt(src, moff, trg, data, msize)
    requires len <= msize && 0 < len <= 0x1_0000 && |src| < 0x8000_0000 && now == text + OpBytes(Copy(moff, len))
    ensures Standing(header, now, src, trg, ops + [Copy(moff, len)], data + len, 0)
    ensures MatchAt(src, moff + len, trg, data + len, msize - len)
  {
    MatchSplit(src, moff, trg, data, msize, len);
    AppendStanding(header, text, src, trg, ops, Copy(moff, len), data, data + len);
  }

  /** Writes one copy of at most 64 KB; what is left of the match stays in hand. */
  method EmitCopy(w: Writer, ghost header: seq<byte>, src: seq<byte>, trg: seq<byte>, ghost ops: seq<Op>, s: Loop, f: Find)
    returns (now: Loop, ghost nowOps: seq<Op>, ghost start: nat)
    requires w.Ok() && w.outpos + 7 <= w.out.Length && |src| < 0x8000_0000
    requires 4 <= f.msize && MatchAt(src, f.moff, trg, s.data, f.msize)
    requires Standing(header, w.Text(), src, trg, ops, s.data, s.inscnt)
    modifies w`outpos, w.out
    ensures w.Ok() && Standing(header, w.Text(), src, trg, nowOps, now.data, 0)
    ensures MatchAt(src, now.moff, trg, now.data, now.msize) && s.data + 4 <= now.data
    ensures CopyTurn(src, trg, ops, s, f, start, old(w.outpos), nowOps, now, w.outpos)
  {
    var data, moff, msize;
    data, moff, msize, nowOps := StepBack(w, header, src, trg, ops, s.data, s.inscnt, f.moff, f.msize);
    start := data;
    ghost var front, from := nowOps, moff;
    data, moff, msize, nowOps := CopyPart(w, header, src, trg, nowOps, data, moff, msize);
    now := Loop(data, 0, s.val, moff, msize);
    CopyMade(src, trg, ops, s, f, start, from, old(w.outpos), front, now, w.outpos);
  }

  /** Copies as much of a match as one instruction can. */
  method CopyPart(w: Writer, ghost header: seq<byte>, ghost src: seq<byte>, ghost trg: seq<byte>, ghost ops: seq<Op>,
                  data0: nat, moff0: nat, msize0: nat) returns (data: nat, moff: nat, msize: nat, ghost nowOps: seq<Op>)
    requires w.Ok() && w.outpos + 7 <= w.out.Length && |src| < 0x8000_0000 && 4 <= msize0
    requires Standing(header, w.Text(), src, trg, ops, data0, 0) && MatchAt(src, moff0, trg, data0, msize0)
    modifies w`outpos, w.out
    ensures w.Ok() && w.outpos <= old(w.outpos) + 7
    ensures Standing(header, w.Text(), src, trg, nowOps, data, 0)
    ensures MatchAt(src, moff, trg, data, msize)
    ensures data == data0 + (if msize0 < 0x1_0000 then msize0 else 0x1_0000)
    ensures data + msize == data0 + msize0 && moff == moff0 + (data - data0) && nowOps == ops + [Copy(moff0, data - data0)]
  {
    var left := if msize0 < 0x1_0000 then 0 else msize0 - 0x1_0000;
    var len := msize0 - left;
    ghost var text := w.Text();
    PutCopy(w, moff0, len);
    CopyStanding(header, text, w.Text(), src, trg, ops, data0, moff0, msize0, len);
    nowOps := ops + [Copy(moff0, len)];
    data, moff, msize := data0 + len, moff0 + len, left;
  }

  // ----- room in the buffer -----

  const MAX_OP_SIZE: nat := 5 + 5 + 1 + 16 + 7

  /** Room for one more round, in a buffer no larger than its limit. */
  predicate Roomy(outpos: nat, outsize: nat, maxSize: nat) {
    outpos + 8 <= outsize && 36 <= outsize && (maxSize > 0 ==> outsize <= maxSize + 35 || outsize <= 8192)
  }

  datatype Growth = Enough | TooLong | Wraps

  /**
   * Enlarges the buffer by half, but not past the size limit, when the next
   * round might not fit. `Wraps` reports that the size does not fit 32 bits.
   */
  method Grow(w: Writer, maxSize: nat) returns (g: Growth)
    requires w.Ok() && 36 <= w.out.Length
    requires maxSize > 0 ==> w.out.Length <= maxSize + 35 || w.out.Length <= 8192
    modifies w`out
    ensures w.Ok() && w.Text() == old(w.Text()) && (w.out == old(w.out) || fresh(w.out))
    ensures g.Enough? ==> Roomy(w.outpos, w.out.Length, maxSize)
    ensures g.TooLong? ==> maxSize > 0 && w.outpos > maxSize
    ensures g.Wraps? ==> 3 * (w.outpos + MAX_OP_SIZE) >= 0x1_0000_0000
    ensures g.Wraps? && maxSize > 0 ==> 3 * (maxSize + 35) >= 0x1_0000_0000
  {
    var outsize := w.out.Length;
    if w.outpos >= outsize - MAX_OP_SIZE {
      if outsize * 3 >= 0x1_0000_0000 {
        return Wraps;
      }
      outsize := outsize * 3 / 2;
      if maxSize > 0 && outsize >= maxSize {
        outsize := maxSize + MAX_OP_SIZE + 1;
      }
      if maxSize > 0 && w.outpos > maxSize {
        return TooLong;
      }
      w.Resize(outsize);
    }
    return Enough;
  }

  // ----- the encoder -----

  /** `Wrapped` stands for a run whose 32-bit buffer size overflows. */
  datatype Created = NoDelta | Delta(bytes: seq<byte>) | Wrapped

  /** The rolling value is the fingerprint of the sixteen target bytes before `data`. */
  predicate Rolled(tb: R.Tables, trg: seq<byte>, data: nat, val: R.Word) {
    R.WINDOW <= data <= |trg| && val == PrintAt(tb, trg, data - 1) && R.Fits(val)
  }

  /** One slide keeps the rolling value equal to the fingerprint, and every table index in range. */
  lemma RolledSlide(tb: R.Tables, trg: seq<byte>, data: nat, val: R.Word)
    requires R.Sound(tb) && Rolled(tb, trg, data, val) && data < |trg|
    ensures R.Indexes(R.Xor(val, tb.remove(trg[data - R.WINDOW] as bv8)))
    ensures Rolled(tb, trg, data + 1, Slide(tb, val, trg[data - R.WINDOW], trg[data]))
  {
    var w := trg[data - R.WINDOW..data];
    PrintSlide(tb, w, trg[data]);
    assert w[1..] + [trg[data]] == trg[data + 1 - R.WINDOW..data + 1];
    R.XorFits(val, tb.remove(trg[data - R.WINDOW] as bv8));
    R.TopIsShift(R.Xor(val, tb.remove(trg[data - R.WINDOW] as bv8)));
    R.EnterFits(tb, R.Xor(val, tb.remove(trg[data - R.WINDOW] as bv8)), trg[data] as bv8);
  }

  /** The fingerprint of the first bytes. */
  function PrintUpTo(tb: R.Tables, trg: seq<byte>, n: nat): R.Word
    requires n <= |trg|
  {
    Print(tb, trg[0..n])
  }

  lemma Primed(tb: R.Tables, trg: seq<byte>, data: nat, val: R.Word)
    requires R.Sound(tb) && data < |trg| && val == PrintUpTo(tb, trg, data) && R.Fits(val)
    ensures Enter(tb, val, trg[data]) == PrintUpTo(tb, trg, data + 1) && R.Fits(Enter(tb, val, trg[data]))
  {
    PrintExtend(tb, trg[0..data], trg[data]);
    assert trg[0..data + 1] == trg[0..data] + [trg[data]];
    R.EnterFits(tb, val, trg[data] as bv8);
  }

  /** The first sixteen bytes, or all of a shorter target, are literals and prime the rolling value. */
  method PutFirst(w: Writer, tb: R.Tables, ghost header: seq<byte>, ghost src: seq<byte>, trg: seq<byte>)
    returns (data: nat, val: R.Word)
    requires w.Ok() && w.Text() == header && w.outpos + 17 <= w.out.Length && R.Sound(tb) && trg != []
    modifies w`outpos, w.out
    ensures w.Ok() && Standing(header, w.Text(), src, trg, [], data, data) && w.outpos == old(w.outpos) + data + 1
    ensures data == if |trg| < R.WINDOW then |trg| else R.WINDOW
    ensures data < |trg| ==> Rolled(tb, trg, data, val)
  {
    w.Skip();
    data, val := 0, R.ZERO;
    assert trg[0..0] == [];
    while data < R.WINDOW && data < |trg|
      invariant data <= R.WINDOW && data <= |trg|
      invariant w.Ok() && w.outpos == old(w.outpos) + 1 + data
      invariant w.Text()[..|header|] == header && w.Text()[|header| + 1..] == trg[..data]
      invariant val == PrintUpTo(tb, trg, data) && R.Fits(val)
    {
      Primed(tb, trg, data, val);
      w.Put(trg[data]);
      val := Enter(tb, val, trg[data]);
      data := data + 1;
    }
    assert header + Stream([]) == header;
    assert trg[0..data] == trg[..data];
  }

  /**
   * Looks for a longer match for the target at the loop's position unless the
   * one in hand is long enough, sliding the window over the next byte.
   */
  method Search(tb: R.Tables, index: Index, trg: seq<byte>, s: Loop) returns (val: R.Word, f: Find)
    requires R.Sound(tb) && IndexOk(tb, index) && s.data < |trg|
    requires MatchAt(index.src, s.moff, trg, s.data, s.msize)
    requires s.msize < GOOD_ENOUGH ==> Rolled(tb, trg, s.data, s.val)
    ensures MatchAt(index.src, f.moff, trg, s.data, f.msize) && s.msize <= f.msize
    ensures s.msize < GOOD_ENOUGH ==> Rolled(tb, trg, s.data + 1, val)
    ensures Searchable(index) && Looked(tb, index, trg, s, f)
  {
    val, f := s.val, Find(s.moff, s.msize);
    IndexInside(tb, index);
    if s.msize < GOOD_ENOUGH {
      val := SlideWindow(tb, trg, s.data, val);
      f := SearchBucket(tb, index, trg, s, val);
    }
  }

  /** Slides the window over the next byte. */
  method SlideWindow(tb: R.Tables, trg: seq<byte>, data: nat, val0: R.Word) returns (val: R.Word)
    requires R.Sound(tb) && data < |trg| && Rolled(tb, trg, data, val0)
    ensures Rolled(tb, trg, data + 1, val) && R.WINDOW <= data && val == PrintAt(tb, trg, data)
  {
    RolledSlide(tb, trg, data, val0);
    val := Slide(tb, val0, trg[data - R.WINDOW], trg[data]);
  }

  /** Goes through the bucket of a fingerprint. */
  method SearchBucket(ghost tb: R.Tables, index: Index, trg: seq<byte>, s: Loop, val: R.Word) returns (f: Find)
    requires IndexOk(tb, index) && Searchable(index) && R.WINDOW <= s.data < |trg| && s.msize < GOOD_ENOUGH
    requires MatchAt(index.src, s.moff, trg, s.data, s.msize) && val == PrintAt(tb, trg, s.data)
    ensures MatchAt(index.src, f.moff, trg, s.data, f.msize) && s.msize <= f.msize
    ensures Looked(tb, index, trg, s, f)
  {
    ghost var r := RulesOf(tb, index.src, index.width);
    var i, t := Bucket(val, index.width), index.table;
    assert HeadOk(r, t, i);
    var moff, msize := FindMatch(r, index.src, t.entries, t.heads[i], trg, s.data, val, s.moff, s.msize);
    f := Find(moff, msize);
    LookedNow(tb, index, trg, s, val, f);
  }

  lemma IndexInside(tb: R.Tables, index: Index)
    requires IndexOk(tb, index)
    ensures Inside(index.src, index.table.entries)
  {
    var r := RulesOf(tb, index.src, index.width);
    forall k | 0 <= k < |index.table.entries| ensures index.table.entries[k].ptr < |index.src| {
      assert r.good(index.table.entries[k].ptr, index.table.entries[k].val);
    }
  }

  /**
   * What holds at every loop head: the text so far encodes the target up to
   * the pending literals, the match in hand is one, and while it is short the
   * rolling value is the fingerprint of the window.
   */
  ghost predicate AtHead(tb: R.Tables, header: seq<byte>, text: seq<byte>, src: seq<byte>, trg: seq<byte>,
                         ops: seq<Op>, s: Loop)
  {
    && Standing(header, text, src, trg, ops, s.data, s.inscnt)
    && MatchAt(src, s.moff, trg, s.data, s.msize)
    && (s.data < |trg| && s.msize < GOOD_ENOUGH ==> Rolled(tb, trg, s.data, s.val))
    && (s.data < |trg| ==> R.WINDOW <= s.data)
    && |text| <= 2 * s.data + 11
  }

  /** One round of the loop: a literal or a copy. The position strictly advances. */
  method Round(w: Writer, tb: R.Tables, index: Index, ghost header: seq<byte>, trg: seq<byte>, ghost ops: seq<Op>, s: Loop)
    returns (now: Loop, ghost nowOps: seq<Op>, ghost f: Find, ghost start: nat)
    requires R.Sound(tb) && IndexOk(tb, index) && |index.src| < 0x8000_0000
    requires w.Ok() && w.outpos + 8 <= w.out.Length && s.data < |trg|
    requires AtHead(tb, header, w.Text(), index.src, trg, ops, s)
    modifies w`outpos, w.out
    ensures w.Ok() && AtHead(tb, header, w.Text(), index.src, trg, nowOps, now) && s.data < now.data
    ensures Turned(tb, index, trg, ops, s, f, start, old(w.outpos), nowOps, now, w.outpos) && f.msize <= |trg| - s.data
  {
    var val, found := Search(tb, index, trg, s);
    f, start := found, 0;
    if found.msize < 4 {
      now, nowOps := RoundLiteral(w, tb, header, index.src, trg, ops, s, val, found.moff);
    } else {
      now, nowOps, start := RoundCopy(w, tb, header, index.src, trg, ops, s, val, found);
    }
  }

  method RoundLiteral(w: Writer, ghost tb: R.Tables, ghost header: seq<byte>, src: seq<byte>, trg: seq<byte>,
                      ghost ops: seq<Op>, s: Loop, val: R.Word, moff: nat)
    returns (now: Loop, ghost nowOps: seq<Op>)
    requires w.Ok() && w.outpos + 8 <= w.out.Length && s.data < |trg| && moff <= |src|
    requires AtHead(tb, header, w.Text(), src, trg, ops, s) && Rolled(tb, trg, s.data + 1, val)
    modifies w`outpos, w.out
    ensures w.Ok() && AtHead(tb, header, w.Text(), src, trg, nowOps, now)
    ensures LiteralTurn(ops, s, old(w.outpos), nowOps, now, w.outpos)
  {
    var cnt;
    cnt, nowOps := PutLiteral(w, header, src, trg, ops, s.data, s.inscnt);
    now := Loop(s.data + 1, cnt, val, moff, 0);
    EmptyMatch(tb, header, w.Text(), src, trg, nowOps, now);
  }

  /** With no match in hand. */
  lemma EmptyMatch(tb: R.Tables, header: seq<byte>, text: seq<byte>, src: seq<byte>, trg: seq<byte>, ops: seq<Op>, s: Loop)
    requires Standing(header, text, src, trg, ops, s.data, s.inscnt) && |text| <= 2 * s.data + 11
    requires s.msize == 0 && s.moff <= |src|
    requires s.data < |trg| ==> Rolled(tb, trg, s.data, s.val)
    ensures AtHead(tb, header, text, src, trg, ops, s)
  {
    assert src[s.moff..s.moff] == trg[s.data..s.data];
  }

  method RoundCopy(w: Writer, tb: R.Tables, ghost header: seq<byte>, src: seq<byte>, trg: seq<byte>,
                   ghost ops: seq<Op>, s: Loop, val: R.Word, f: Find)
    returns (now: Loop, ghost nowOps: seq<Op>, ghost start: nat)
    requires R.Sound(tb) && |src| < 0x8000_0000
    requires w.Ok() && w.outpos + 8 <= w.out.Length && s.data < |trg|
    requires AtHead(tb, header, w.Text(), src, trg, ops, s) && MatchAt(src, f.moff, trg, s.data, f.msize) && 4 <= f.msize
    modifies w`outpos, w.out
    ensures w.Ok() && AtHead(tb, header, w.Text(), src, trg, nowOps, now) && s.data + 4 <= now.data
    ensures CopyTurn(src, trg, ops, s, f, start, old(w.outpos), nowOps, now, w.outpos)
  {
    now, nowOps, start := EmitCopy(w, header, src, trg, ops, s, f);
    var rolled := Reprime(tb, trg, now.data, now.msize, val);
    now := now.(val := rolled);
  }

  /** While the match in hand is short, the rolling value is computed anew behind a copy. */
  method Reprime(tb: R.Tables, trg: seq<byte>, data: nat, msize: nat, val: R.Word) returns (rolled: R.Word)
    requires R.Sound(tb) && R.WINDOW <= data <= |trg|
    ensures msize < GOOD_ENOUGH ==> Rolled(tb, trg, data, rolled)
  {
    rolled := val;
    if msize < GOOD_ENOUGH {
      rolled := PrintWindow(tb, trg, data - R.WINDOW);
    }
  }

  /** Writes the headers and the first literals into a new buffer. */
  method Begin(tb: R.Tables, src: seq<byte>, trg: seq<byte>, maxSize: nat)
    returns (w: Writer, s: Loop, ghost header: seq<byte>)
    requires R.Sound(tb) && trg != [] && |src| < 0x8000_0000 && |trg| < 0x8000_0000
    ensures fresh(w) && fresh(w.out) && w.Ok() && Roomy(w.outpos, w.out.Length, maxSize)
    ensures header == HeaderBytes(|src|) + HeaderBytes(|trg|)
    ensures AtHead(tb, header, w.Text(), src, trg, [], s)
    ensures s.data == s.inscnt == (if |trg| < R.WINDOW then |trg| else R.WINDOW) && s.msize == 0 && w.outpos == |header| + s.data + 1
  {
    w := new Writer(if 0 < maxSize <= 8192 then maxSize + MAX_OP_SIZE + 1 else 8192);
    header := PutHeaders(w, |src|, |trg|);
    var data, val := PutFirst(w, tb, header, src, trg);
    s := Loop(data, data, val, 0, 0);
    EmptyMatch(tb, header, w.Text(), src, trg, [], s);
  }

  method PutHeaders(w: Writer, source: nat, target: nat) returns (ghost header: seq<byte>)
    requires w.Ok() && w.Text() == [] && w.out.Length >= 10 && source < 0x8000_0000 && target < 0x8000_0000
    modifies w`outpos, w.out
    ensures w.Ok() && w.Text() == header && w.outpos <= 10
    ensures header == HeaderBytes(source) + HeaderBytes(target)
  {
    HeaderRoundTrip(source, 0, []);
    HeaderRoundTrip(target, 0, []);
    header := HeaderBytes(source) + HeaderBytes(target);
    PutHeader(w, source);
    PutHeader(w, target);
    assert w.Text() == header;
  }

  /** The instructions are a delta of the target, and leave out no match that the index leads to. */
  ghost predicate Encodes(tb: R.Tables, index: Index, trg: seq<byte>, ops: seq<Op>, bytes: seq<byte>) {
    && AllEncodable(ops) && All(InRangeOf(index.src), ops) && Expand(index.src, ops) == trg
    && bytes == HeaderBytes(|index.src|) + HeaderBytes(|trg|) + Stream(ops)
    && NoneMissed(tb, index, trg, ops)
  }

  /** Closes the last literals; the whole text is then the delta. */
  method Finish(w: Writer, ghost tb: R.Tables, ghost index: Index, ghost trg: seq<byte>, ghost ops: seq<Op>, last: Loop, maxSize: nat)
    returns (r: Created, ghost all: seq<Op>)
    requires w.Ok() && |index.src| < 0x8000_0000 && |trg| < 0x8000_0000 && Searchable(index)
    requires last.data >= |trg| && Thrifty(tb, index, trg, ops, last.data)
    requires AtHead(tb, HeaderBytes(|index.src|) + HeaderBytes(|trg|), w.Text(), index.src, trg, ops, last)
    modifies w.out
    ensures !r.Wrapped?
    ensures r.NoDelta? ==> 0 < maxSize < w.outpos
    ensures r.Delta? ==> |r.bytes| == w.outpos && (maxSize > 0 ==> |r.bytes| <= maxSize)
    ensures r.Delta? ==> Meaning(index.src, r.bytes) == Some(trg) && Encodes(tb, index, trg, all, r.bytes)
  {
    ghost var header := HeaderBytes(|index.src|) + HeaderBytes(|trg|);
    var inscnt := last.inscnt;
    all := ops;
    if inscnt > 0 {
      CloseStanding(header, w.Text(), index.src, trg, ops, |trg|, inscnt);
      w.Set(w.outpos - inscnt - 1, inscnt);
      all := ops + [Insert(trg[|trg| - inscnt..|trg|])];
    }
    StandingMeaning(w.Text(), index.src, trg, all);
    AllEncoded(tb, index, trg, ops, all);
    if maxSize > 0 && w.outpos > maxSize {
      return NoDelta, all;
    }
    r := Delta(w.out[..w.outpos]);
  }

  lemma AllEncoded(tb: R.Tables, index: Index, trg: seq<byte>, ops: seq<Op>, all: seq<Op>)
    requires Searchable(index) && Closes(ops, all) && Thrifty(tb, index, trg, ops, |trg|)
    requires AllEncodable(all) && All(InRangeOf(index.src), all) && Expand(index.src, all) == trg
    ensures NoneMissed(tb, index, trg, all)
  {
    ThriftyCloses(tb, index, trg, ops, all, |trg|);
    ThriftyMissesNone(tb, index, trg, all);
  }

  /** With everything encoded the text means the target. */
  lemma StandingMeaning(text: seq<byte>, src: seq<byte>, trg: seq<byte>, ops: seq<Op>)
    requires |src| < 0x8000_0000 && |trg| < 0x8000_0000
    requires Standing(HeaderBytes(|src|) + HeaderBytes(|trg|), text, src, trg, ops, |trg|, 0)
    ensures Meaning(src, text) == Some(trg)
    ensures Expand(src, ops) == trg && text == HeaderBytes(|src|) + HeaderBytes(|trg|) + Stream(ops)
  {
    assert trg[..|trg|] == trg && trg[|trg|..|trg|] == [];
    WrittenMeaning(src, ops);
  }

  /** What a target that the base begins with takes: the headers, and seven bytes for each 64 KB. */
  function CopySize(src: seq<byte>, trg: seq<byte>): nat { |HeaderBytes(|src|) + HeaderBytes(|trg|)| + 7 * Copies(|trg|) }

  /** The base begins with the target, the index with the base, and the limit leaves room for the copies. */
  ghost predicate CanCopy(tb: R.Tables, index: Index, trg: seq<byte>, maxSize: nat) {
    StartsHead(tb, index) && Begins(index.src, trg) && (maxSize == 0 || maxSize >= CopySize(index.src, trg))
  }

  /**
   * Encodes a target against an indexed base. Whatever delta it returns means
   * exactly the target, and respects the size limit if there is one. The
   * buffer size stays within 32 bits unless the target is huge. Wherever the
   * target repeats the base at a position that the index leads to, the delta
   * copies; a target that the base begins with takes a few bytes only.
   */
  method Create(tb: R.Tables, index: Index, trg: seq<byte>, maxSize: nat) returns (r: Created, ghost ops: seq<Op>)
    requires R.Sound(tb) && IndexOk(tb, index)
    requires |index.src| < 0x8000_0000 && |trg| < 0x8000_0000
    ensures trg == [] ==> r == NoDelta
    ensures r.NoDelta? ==> trg == [] || Tight(trg, maxSize)
    ensures r.Delta? ==> Meaning(index.src, r.bytes) == Some(trg)
    ensures r.Delta? && maxSize > 0 ==> |r.bytes| <= maxSize
    ensures r.Wrapped? ==> Huge(trg, maxSize)
    ensures r.Delta? ==> Encodes(tb, index, trg, ops, r.bytes)
    ensures CanCopy(tb, index, trg, maxSize) ==> r.Delta? && |r.bytes| <= CopySize(index.src, trg)
  {
    if trg == [] {
      return NoDelta, [];
    }
    var w, s, header := Begin(tb, index.src, trg, maxSize);
    var g, last;
    g, last, ops := Rounds(w, tb, index, header, trg, maxSize, s);
    if g.Wraps? {
      return Wrapped, ops;
    }
    if g.TooLong? {
      return NoDelta, ops;
    }
    r, ops := Finish(w, tb, index, trg, ops, last, maxSize);
  }

  /** A limit below what any target of this size needs at most. */
  predicate Tight(trg: seq<byte>, maxSize: nat) { 0 < maxSize < 2 * |trg| + 11 }

  /** The 32-bit size of the buffer overflows only for huge targets and limits. */
  predicate Huge(trg: seq<byte>, maxSize: nat) {
    6 * |trg| + 135 >= 0x1_0000_0000 && (maxSize > 0 ==> 3 * (maxSize + 35) >= 0x1_0000_0000)
  }

  /** Past the first round through a target that can be copied. */
  ghost predicate Copying(tb: R.Tables, index: Index, trg: seq<byte>, header: nat, maxSize: nat, s: Loop, n: nat, first: bool) {
    CanCopy(tb, index, trg, maxSize) ==>
      if first then s.data == s.inscnt == R.WINDOW && s.msize == 0 && n == header + 17 else Sails(header, trg, s, n)
  }

  /** What the rounds keep beside the text. */
  ghost predicate Keeps(tb: R.Tables, index: Index, trg: seq<byte>, header: nat, maxSize: nat, ops: seq<Op>, s: Loop, n: nat, first: bool) {
    Thrifty(tb, index, trg, ops, s.data) && Copying(tb, index, trg, header, maxSize, s, n, first)
  }

  lemma KeepsNext(tb: R.Tables, index: Index, trg: seq<byte>, header: nat, maxSize: nat, ops: seq<Op>, s: Loop, n: nat, first: bool,
                  f: Find, start: nat, nowOps: seq<Op>, now: Loop, m: nat)
    requires Keeps(tb, index, trg, header, maxSize, ops, s, n, first) && s.data < |trg| && f.msize <= |trg| - s.data
    requires Turned(tb, index, trg, ops, s, f, start, n, nowOps, now, m) && (now.inscnt == 0 ==> |Copied(nowOps)| == now.data)
    ensures Keeps(tb, index, trg, header, maxSize, nowOps, now, m, false)
  {
    ThriftyNext(tb, index, trg, ops, s, f, start, n, nowOps, now, m);
    if CanCopy(tb, index, trg, maxSize) {
      if first {
        SailsFirst(tb, index, trg, ops, s, f, start, n, nowOps, now, m, header);
      } else {
        SailsNext(tb, index, trg, ops, s, f, start, n, nowOps, now, m, header);
      }
    }
  }

  /** A target that can be copied stays within its size. */
  lemma KeepsBound(tb: R.Tables, index: Index, trg: seq<byte>, maxSize: nat, ops: seq<Op>, s: Loop, n: nat)
    requires Keeps(tb, index, trg, |HeaderBytes(|index.src|) + HeaderBytes(|trg|)|, maxSize, ops, s, n, false)
    requires s.data <= |trg| && CanCopy(tb, index, trg, maxSize)
    ensures n <= CopySize(index.src, trg)
  {
    SailsBound(|HeaderBytes(|index.src|) + HeaderBytes(|trg|)|, trg, s, n);
  }

  /** A round, after which the buffer is enlarged if need be. */
  method Turn(w: Writer, tb: R.Tables, index: Index, ghost header: seq<byte>, trg: seq<byte>, maxSize: nat,
              ghost ops: seq<Op>, s: Loop, ghost first: bool) returns (g: Growth, now: Loop, ghost nowOps: seq<Op>)
    requires R.Sound(tb) && IndexOk(tb, index) && |index.src| < 0x8000_0000
    requires w.Ok() && Roomy(w.outpos, w.out.Length, maxSize) && s.data < |trg|
    requires AtHead(tb, header, w.Text(), index.src, trg, ops, s)
    requires Keeps(tb, index, trg, |header|, maxSize, ops, s, w.outpos, first)
    modifies w, w.out
    ensures w.Ok() && (w.out == old(w.out) || fresh(w.out))
    ensures AtHead(tb, header, w.Text(), index.src, trg, nowOps, now) && s.data < now.data
    ensures Keeps(tb, index, trg, |header|, maxSize, nowOps, now, w.outpos, false)
    ensures Fared(g, w.outpos, w.out.Length, maxSize)
  {
    ghost var f, start;
    ghost var n := w.outpos;
    now, nowOps, f, start := Round(w, tb, index, header, trg, ops, s);
    CopiedLength(index.src, nowOps);
    KeepsNext(tb, index, trg, |header|, maxSize, ops, s, n, first, f, start, nowOps, now, w.outpos);
    g := Grow(w, maxSize);
  }

  /** There is room for the next round, or the text has grown too long for its limit or for 32 bits. */
  predicate Fared(g: Growth, outpos: nat, outsize: nat, maxSize: nat) {
    match g
    case Enough => Roomy(outpos, outsize, maxSize)
    case TooLong => 0 < maxSize < outpos
    case Wraps => 3 * (outpos + MAX_OP_SIZE) >= 0x1_0000_0000 && (maxSize > 0 ==> 3 * (maxSize + 35) >= 0x1_0000_0000)
  }

  /** Turn after turn until the target is encoded or the buffer gives out. */
  method Rounds(w: Writer, tb: R.Tables, index: Index, ghost header: seq<byte>, trg: seq<byte>, maxSize: nat, s0: Loop)
    returns (g: Growth, s: Loop, ghost ops: seq<Op>)
    requires R.Sound(tb) && IndexOk(tb, index) && |index.src| < 0x8000_0000 && |trg| < 0x8000_0000
    requires header == HeaderBytes(|index.src|) + HeaderBytes(|trg|)
    requires w.Ok() && Roomy(w.outpos, w.out.Length, maxSize) && AtHead(tb, header, w.Text(), index.src, trg, [], s0)
    requires Keeps(tb, index, trg, |header|, maxSize, [], s0, w.outpos, true)
    modifies w, w.out
    ensures w.Ok() && (w.out == old(w.out) || fresh(w.out))
    ensures AtHead(tb, header, w.Text(), index.src, trg, ops, s) && Thrifty(tb, index, trg, ops, s.data)
    ensures g.Enough? ==> s.data >= |trg|
    ensures !g.Enough? ==> Fared(g, w.outpos, w.out.Length, maxSize)
    ensures CanCopy(tb, index, trg, maxSize) ==> g.Enough? && w.outpos <= CopySize(index.src, trg)
  {
    g, s, ops := Enough, s0, [];
    ghost var first := true;
    while s.data < |trg|
      invariant w.Ok() && (w.out == old(w.out) || fresh(w.out)) && Roomy(w.outpos, w.out.Length, maxSize)
      invariant g.Enough? && AtHead(tb, header, w.Text(), index.src, trg, ops, s)
      invariant Keeps(tb, index, trg, |header|, maxSize, ops, s, w.outpos, first)
      decreases |trg| - s.data
    {
      g, s, ops := Turn(w, tb, index, header, trg, maxSize, ops, s, first);
      first := false;
      if CanCopy(tb, index, trg, maxSize) {
        KeepsBound(tb, index, trg, maxSize, ops, s, w.outpos);
      }
      if !g.Enough? {
        return;
      }
    }
    if CanCopy(tb, index, trg, maxSize) {
      KeepsBound(tb, index, trg, maxSize, ops, s, w.outpos);
    }
  }
}
